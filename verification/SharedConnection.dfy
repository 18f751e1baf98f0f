// Any number of asyncio tasks on one SQLite client (tortoise/backends/sqlite/client.py,
// tortoise/backends/base/client.py): one raw connection, the client's lock, which is also the
// transaction lock, and per transaction a wrapper with its own lock and finalised flag. Every
// `await` is a place where another task may run, so each step below is one stretch between awaits.
module SharedConnection {
  import opened Common
  import opened RawStore

  type TaskId = nat
  type TrxId = nat

  /** Who holds the client's lock: a task in autocommit mode, or a transaction wrapper. */
  datatype Client = Task(task: TaskId) | Trx(trx: TrxId)

  /** Life of a transaction context. `Exiting(Some(c))` still has to commit or roll back. */
  datatype Phase = Locked | Cleared | Active | Exiting(todo: Option<bool>) | Gone | Failed

  datatype TrxState = TrxState(phase: Phase, finalized: bool, lock: Option<TaskId>)

  datatype BatchPoint = Held | Begun | Ran | Ended

  /** What a task is in the middle of. */
  datatype Activity =
    | Single(stmt: Stmt, done: bool)                           // one autocommit statement
    | Batch(rows: Stmt, ok: bool, at: BatchPoint)              // execute_many of the base client
    | Using(trx: TrxId, stmt: Stmt, done: bool)                // a statement through a wrapper
    | Ending(trx: TrxId, commit: bool, done: bool)             // wrapper.commit() / rollback()

  /** One period during which the client's lock is held, with everything sent down the raw
      connection while it lasted. A hold is transactional unless it is a single statement. */
  datatype Hold = Hold(owner: Client, transactional: bool, log: seq<(Client, Event)>)

  /** `history` is not part of the program: it records the holds in lock-acquisition order. */
  datatype Sys = Sys(raw: Raw, lock: Option<Client>, trxs: map<TrxId, TrxState>,
                     acts: map<TaskId, Activity>, history: seq<Hold>)

  /** How a block ends: normally, by TransactionManagementError, or by any other exception. */
  datatype Outcome = Normal | ManagementError | OtherError

  datatype Step =
    | StartSingle(t: TaskId, s: Stmt) | RunSingle(t: TaskId) | FreeSingle(t: TaskId)
    | StartBatch(t: TaskId, s: Stmt, ok: bool) | BeginBatch(t: TaskId) | RunBatch(t: TaskId)
    | EndBatch(t: TaskId) | FreeBatch(t: TaskId)
    | Enter(w: TrxId) | ClearRaw(w: TrxId) | BeginRaw(w: TrxId)
    | StartUse(t: TaskId, w: TrxId, s: Stmt) | RunUse(t: TaskId) | FreeUse(t: TaskId)
    | StartEnd(t: TaskId, w: TrxId, commit: bool) | RunEnd(t: TaskId) | FlagEnd(t: TaskId)
    | Exit(w: TrxId, outcome: Outcome) | FinishExit(w: TrxId) | Leave(w: TrxId)

  function Init(db: Db): Sys {
    Sys(Closed(db), None, map[], map[], [])
  }

  predicate Idle(s: Sys, t: TaskId) {
    t !in s.acts
  }

  predicate IsActive(s: Sys, w: TrxId) {
    w in s.trxs && s.trxs[w].phase == Active
  }

  /** No task is in the middle of something on this wrapper. */
  predicate Unused(s: Sys, w: TrxId) {
    forall t <- s.acts :: !(s.acts[t].Using? || s.acts[t].Ending?) || s.acts[t].trx != w
  }

  predicate Enabled(s: Sys, step: Step) {
    match step
    case StartSingle(t, _) => Idle(s, t) && s.lock == None
    case RunSingle(t) => t in s.acts && s.acts[t].Single? && !s.acts[t].done
    case FreeSingle(t) => t in s.acts && s.acts[t].Single? && s.acts[t].done
    case StartBatch(t, _, _) => Idle(s, t) && s.lock == None
    case BeginBatch(t) => t in s.acts && s.acts[t].Batch? && s.acts[t].at == Held && s.raw.Begin().Some?
    case RunBatch(t) => t in s.acts && s.acts[t].Batch? && s.acts[t].at == Begun
    case EndBatch(t) => t in s.acts && s.acts[t].Batch? && s.acts[t].at == Ran
    case FreeBatch(t) => t in s.acts && s.acts[t].Batch? && s.acts[t].at == Ended
    case Enter(w) => w !in s.trxs && s.lock == None
    case ClearRaw(w) => w in s.trxs && s.trxs[w].phase == Locked
    case BeginRaw(w) => w in s.trxs && s.trxs[w].phase == Cleared
    case StartUse(t, w, _) => Idle(s, t) && IsActive(s, w) && s.trxs[w].lock == None
    case RunUse(t) => t in s.acts && s.acts[t].Using? && !s.acts[t].done
    case FreeUse(t) => t in s.acts && s.acts[t].Using? && s.acts[t].done && s.acts[t].trx in s.trxs
    case StartEnd(t, w, _) => Idle(s, t) && IsActive(s, w)
    case RunEnd(t) => t in s.acts && s.acts[t].Ending? && !s.acts[t].done
    case FlagEnd(t) => t in s.acts && s.acts[t].Ending? && s.acts[t].done && s.acts[t].trx in s.trxs
    case Exit(w, _) => IsActive(s, w) && Unused(s, w)
    case FinishExit(w) => w in s.trxs && s.trxs[w].phase.Exiting? && s.trxs[w].phase.todo.Some?
    case Leave(w) => w in s.trxs && s.trxs[w].phase == Exiting(None)
  }

  // ---- Small updates ---------------------------------------------------------------------------

  function Acquire(s: Sys, c: Client, transactional: bool): Sys {
    s.(lock := Some(c), history := s.history + [Hold(c, transactional, [])])
  }

  function Doing(s: Sys, t: TaskId, a: Activity): Sys {
    s.(acts := s.acts[t := a])
  }

  function Rest(s: Sys, t: TaskId): Sys {
    s.(acts := s.acts - {t})
  }

  function With(s: Sys, w: TrxId, x: TrxState): Sys {
    s.(trxs := s.trxs[w := x])
  }

  /** An operation on the raw connection, noted in the hold that is going on at that moment. */
  function Send(s: Sys, c: Client, e: Event): Sys {
    var raw := match e case Exec(f) => s.raw.Exec(f) case Finish(commit) => s.raw.Finish(commit);
    if s.history == [] then s.(raw := raw)
    else
      var n := |s.history| - 1;
      s.(raw := raw, history := s.history[n := s.history[n].(log := s.history[n].log + [(c, e)])])
  }

  /** What TransactionContext.__aexit__ decides to do. */
  function OnExit(finalized: bool, outcome: Outcome): Option<bool> {
    if finalized then None
    else if outcome == Normal then Some(true)
    else if outcome == OtherError then Some(false)
    else None
  }

  function Do(s: Sys, step: Step): Sys
    requires Enabled(s, step)
  {
    match step
    case StartSingle(t, f) => Doing(Acquire(s, Task(t), false), t, Single(f, false))
    case RunSingle(t) => var f := s.acts[t].stmt; Doing(Send(s, Task(t), Event.Exec(f)), t, Single(f, true))
    case FreeSingle(t) => Rest(s, t).(lock := None)
    case StartBatch(t, f, ok) => Doing(Acquire(s, Task(t), true), t, Batch(f, ok, Held))
    case BeginBatch(t) => Doing(s.(raw := s.raw.Begin().value), t, s.acts[t].(at := Begun))
    case RunBatch(t) => Doing(Send(s, Task(t), Event.Exec(s.acts[t].rows)), t, s.acts[t].(at := Ran))
    case EndBatch(t) => Doing(Send(s, Task(t), Event.Finish(s.acts[t].ok)), t, s.acts[t].(at := Ended))
    case FreeBatch(t) => Rest(s, t).(lock := None)
    case Enter(w) => With(Acquire(s, Trx(w), true), w, TrxState(Locked, false, None))
    case ClearRaw(w) => With(s.(raw := s.raw.Finish(true)), w, s.trxs[w].(phase := Cleared))
    case BeginRaw(w) =>
      if s.raw.Begin().None? then With(s, w, s.trxs[w].(phase := Failed))
      else With(s.(raw := s.raw.Begin().value), w, s.trxs[w].(phase := Active))
    case StartUse(t, w, f) => Doing(With(s, w, s.trxs[w].(lock := Some(t))), t, Using(w, f, false))
    case RunUse(t) =>
      var w, f := s.acts[t].trx, s.acts[t].stmt;
      Doing(Send(s, Trx(w), Event.Exec(f)), t, Using(w, f, true))
    case FreeUse(t) => var w := s.acts[t].trx; With(Rest(s, t), w, s.trxs[w].(lock := None))
    case StartEnd(t, w, commit) => if s.trxs[w].finalized then s else Doing(s, t, Ending(w, commit, false))
    case RunEnd(t) =>
      var w, commit := s.acts[t].trx, s.acts[t].commit;
      Doing(Send(s, Trx(w), Event.Finish(commit)), t, Ending(w, commit, true))
    case FlagEnd(t) => var w := s.acts[t].trx; With(Rest(s, t), w, s.trxs[w].(finalized := true))
    case Exit(w, outcome) => With(s, w, s.trxs[w].(phase := Exiting(OnExit(s.trxs[w].finalized, outcome))))
    case FinishExit(w) =>
      With(Send(s, Trx(w), Event.Finish(s.trxs[w].phase.todo.value)), w,
           s.trxs[w].(phase := Exiting(None), finalized := true))
    case Leave(w) => With(s.(lock := None), w, s.trxs[w].(phase := Gone))
  }

  /** A block left by TransactionManagementError while its transaction is unfinalised. */
  predicate Leaky(s: Sys, step: Step) {
    step.Exit? && step.outcome == ManagementError && step.w in s.trxs && !s.trxs[step.w].finalized
  }

  /** A run: any enabled steps of any tasks, in any order, without a leaky exit. */
  ghost predicate Run(s: Sys, steps: seq<Step>)
    decreases |steps|
  {
    steps == [] || (Enabled(s, steps[0]) && !Leaky(s, steps[0]) && Run(Do(s, steps[0]), steps[1..]))
  }

  ghost function After(s: Sys, steps: seq<Step>): Sys
    requires Run(s, steps)
    decreases |steps|
  {
    if steps == [] then s else After(Do(s, steps[0]), steps[1..])
  }

  // ---- The sequential reading ------------------------------------------------------------------

  function Events(log: seq<(Client, Event)>): (r: seq<Event>)
    ensures |r| == |log| && forall i :: 0 <= i < |log| ==> r[i] == log[i].1
  {
    seq(|log|, i requires 0 <= i < |log| => log[i].1)
  }

  /** One hold executed alone. */
  ghost function Alone(db: Db, h: Hold): Db {
    if h.transactional then Atomically(db, Events(h.log)) else ExecAll(db, Events(h.log))
  }

  /** The holds executed one after the other, each from start to end. */
  ghost function Replay(db: Db, holds: seq<Hold>): Db {
    if holds == [] then db else Alone(Replay(db, holds[..|holds| - 1]), holds[|holds| - 1])
  }

  // ---- Invariant -------------------------------------------------------------------------------

  predicate OnBase(a: Activity) {
    a.Single? || a.Batch?
  }

  ghost predicate Ownership(s: Sys) {
    && (forall t <- s.acts :: OnBase(s.acts[t]) ==> s.lock == Some(Task(t)))
    && (forall t <- s.acts :: !OnBase(s.acts[t]) ==> IsActive(s, s.acts[t].trx))
    && (forall w <- s.trxs :: s.trxs[w].phase != Gone <==> s.lock == Some(Trx(w)))
    && (forall w <- s.trxs :: s.trxs[w].phase != Failed)
    && (s.lock.Some? && s.lock.value.Task? ==> s.lock.value.task in s.acts && OnBase(s.acts[s.lock.value.task]))
    && (s.lock.Some? && s.lock.value.Trx? ==> s.lock.value.trx in s.trxs)
  }

  ghost predicate OwnLogs(s: Sys) {
    forall h <- s.history, e <- h.log :: e.0 == h.owner
  }

  /** The hold going on. */
  function Current(s: Sys): Hold
    requires s.history != []
  {
    s.history[|s.history| - 1]
  }

  ghost predicate Done(s: Sys)
    requires s.history != []
  {
    Finished(Events(Current(s).log))
  }

  ghost predicate CurrentFits(s: Sys) {
    s.lock.Some? ==>
      && s.history != [] && Current(s).owner == s.lock.value
      && (s.lock.value.Task? && s.lock.value.task in s.acts ==>
            var a := s.acts[s.lock.value.task];
            && (Current(s).transactional <==> a.Batch?)
            && (a.Batch? && a.at in {Held, Begun} ==> Current(s).log == [])
            && (a.Batch? && a.at == Ran ==> !Done(s))
            && (a.Batch? && a.at == Ended ==> Done(s)))
      && (s.lock.value.Trx? && s.lock.value.trx in s.trxs ==>
            var x := s.trxs[s.lock.value.trx];
            && Current(s).transactional
            && (x.phase in {Locked, Cleared} ==> Current(s).log == [])
            && (x.finalized || x.phase == Exiting(None) ==> Done(s))
            && (forall t <- s.acts :: RawEnded(s, t) ==> Done(s)))
  }

  /** The task has ended the transaction on the raw connection and not yet set the flag. */
  predicate RawEnded(s: Sys, t: TaskId) {
    t in s.acts && s.acts[t].Ending? && s.acts[t].done
  }

  /** Exactly these situations have a transaction open on the raw connection. */
  ghost predicate ShouldBeOpen(s: Sys) {
    && s.lock.Some? && s.history != []
    && match s.lock.value
       case Task(t) => t in s.acts && s.acts[t].Batch? && s.acts[t].at in {Begun, Ran}
       case Trx(w) => w in s.trxs && s.trxs[w].phase !in {Locked, Cleared, Gone} && !Done(s)
  }

  /** What a transaction going on must see: everything before it, and its own statements. */
  ghost function InProgress(s: Sys, db: Db): Db
    requires s.history != []
  {
    ExecAll(Replay(db, s.history[..|s.history| - 1]), Events(Current(s).log))
  }

  ghost predicate Content(s: Sys, db: Db) {
    && (s.raw.Open? <==> ShouldBeOpen(s))
    && s.raw.Committed() == Replay(db, s.history)
    && (s.raw.Open? ==> s.raw.working == InProgress(s, db))
  }

  /** Between the end on the raw connection and the flag, some task is on its way to set the flag. */
  ghost predicate Accounted(s: Sys) {
    (s.lock.Some? && s.lock.value.Trx? && s.history != [] && IsActive(s, s.lock.value.trx) && Done(s)) ==>
      s.trxs[s.lock.value.trx].finalized || exists t <- s.acts :: RawEnded(s, t)
  }

  ghost predicate Inv(s: Sys, db: Db) {
    Ownership(s) && OwnLogs(s) && CurrentFits(s) && Content(s, db) && Accounted(s)
  }

  lemma AcquireFacts(s: Sys, c: Client, transactional: bool, db: Db)
    ensures var s' := Acquire(s, c, transactional);
            && Replay(db, s'.history) == Replay(db, s.history)
            && s'.history[..|s'.history| - 1] == s.history
            && Events(Current(s').log) == [] && !Done(s')
  {}

  /** Sending through the owner of the current hold keeps the raw connection and the record of it
      in step, provided a transaction is open exactly while the hold needs one. */
  lemma SendFacts(s: Sys, c: Client, e: Event, db: Db)
    requires s.history != [] && c == Current(s).owner && OwnLogs(s)
    requires s.raw.Open? <==> Current(s).transactional && !Done(s)
    requires s.raw.Committed() == Replay(db, s.history)
    requires s.raw.Open? ==> s.raw.working == InProgress(s, db)
    ensures var s' := Send(s, c, e);
            && |s'.history| == |s.history| && OwnLogs(s')
            && Current(s').owner == Current(s).owner && Current(s').transactional == Current(s).transactional
            && (Done(s') <==> Done(s) || e.Finish?)
            && (s'.raw.Open? <==> Current(s').transactional && !Done(s'))
            && s'.raw.Committed() == Replay(db, s'.history)
            && (s'.raw.Open? ==> s'.raw.working == InProgress(s', db))
  {
    var s', n := Send(s, c, e), |s.history| - 1;
    var log, before := Events(Current(s).log), Replay(db, s.history[..n]);
    assert s'.history[..n] == s.history[..n];
    assert Events(Current(s').log) == log + [e];
    FinishedGrows(log, e);
    ExecAllGrows(before, log, e);
    AtomicallyGrows(before, log, e);
    SendOwnLogs(s, c, e);
  }

  lemma SendOwnLogs(s: Sys, c: Client, e: Event)
    requires s.history != [] && c == Current(s).owner && OwnLogs(s)
    ensures OwnLogs(Send(s, c, e))
  {
    var s' := Send(s, c, e);
    forall h <- s'.history, x <- h.log ensures x.0 == h.owner {
      assert Current(s) in s.history;
      if h == Current(s') {
        assert x in Current(s).log || x == (c, e);
      } else {
        assert h in s.history;
      }
    }
  }

  predicate Autocommit(step: Step) {
    || step.StartSingle? || step.RunSingle? || step.FreeSingle?
    || step.StartBatch? || step.BeginBatch? || step.RunBatch? || step.EndBatch? || step.FreeBatch?
  }

  predicate Context(step: Step) {
    step.Enter? || step.ClearRaw? || step.BeginRaw? || step.Exit? || step.FinishExit? || step.Leave?
  }

  lemma AutocommitOwnership(s: Sys, step: Step)
    requires Ownership(s) && Enabled(s, step) && Autocommit(step)
    ensures Ownership(Do(s, step))
  {}

  lemma EnterOwnership(s: Sys, step: Step)
    requires Ownership(s) && Enabled(s, step) && (step.Enter? || step.ClearRaw? || step.BeginRaw?)
    requires step.BeginRaw? ==> s.raw.Closed?
    ensures Ownership(Do(s, step))
  {}

  lemma ExitOwnership(s: Sys, step: Step)
    requires Ownership(s) && Enabled(s, step) && (step.Exit? || step.FinishExit? || step.Leave?)
    ensures Ownership(Do(s, step))
  {
    match step
    case Exit(w, o) =>
    case FinishExit(w) =>
    case Leave(w) =>
  }

  lemma UseOwnership(s: Sys, step: Step)
    requires Ownership(s) && Enabled(s, step) && (step.StartUse? || step.RunUse? || step.FreeUse?)
    ensures Ownership(Do(s, step))
  {
    match step
    case StartUse(t, w, f) =>
    case RunUse(t) =>
    case FreeUse(t) =>
  }

  lemma EndOwnership(s: Sys, step: Step)
    requires Ownership(s) && Enabled(s, step) && (step.StartEnd? || step.RunEnd? || step.FlagEnd?)
    ensures Ownership(Do(s, step))
  {
    match step
    case StartEnd(t, w, c) =>
    case RunEnd(t) =>
    case FlagEnd(t) =>
  }

  /** The rest of the invariant: what the record says about locks, logs and contents. */
  ghost predicate Record(s: Sys, db: Db) {
    OwnLogs(s) && CurrentFits(s) && Content(s, db)
  }

  lemma SingleRecord(s: Sys, step: Step, db: Db)
    requires Inv(s, db) && Enabled(s, step) && (step.StartSingle? || step.RunSingle? || step.FreeSingle?)
    ensures Record(Do(s, step), db)
  {
    match step
    case StartSingle(t, _) => AcquireFacts(s, Task(t), false, db);
    case RunSingle(t) => SendFacts(s, Task(t), Event.Exec(s.acts[t].stmt), db);
    case FreeSingle(t) =>
  }

  lemma StartBatchRecord(s: Sys, t: TaskId, f: Stmt, ok: bool, db: Db)
    requires Inv(s, db) && Enabled(s, StartBatch(t, f, ok))
    ensures Record(Do(s, StartBatch(t, f, ok)), db)
  {
    AcquireFacts(s, Task(t), true, db);
  }

  lemma BeginBatchRecord(s: Sys, t: TaskId, db: Db)
    requires Inv(s, db) && Enabled(s, BeginBatch(t))
    ensures Record(Do(s, BeginBatch(t)), db)
  {}

  lemma BatchRecord(s: Sys, step: Step, db: Db)
    requires Inv(s, db) && Enabled(s, step) && (step.RunBatch? || step.EndBatch? || step.FreeBatch?)
    ensures Record(Do(s, step), db)
  {
    match step
    case RunBatch(t) => SendFacts(s, Task(t), Event.Exec(s.acts[t].rows), db);
    case EndBatch(t) => SendFacts(s, Task(t), Event.Finish(s.acts[t].ok), db);
    case FreeBatch(t) =>
  }

  lemma EnterRecord(s: Sys, w: TrxId, db: Db)
    requires Inv(s, db) && Enabled(s, Enter(w))
    ensures Record(Do(s, Enter(w)), db)
  {
    AcquireFacts(s, Trx(w), true, db);
  }

  lemma BeginRecord(s: Sys, step: Step, db: Db)
    requires Inv(s, db) && Enabled(s, step) && (step.ClearRaw? || step.BeginRaw?)
    ensures s.raw.Closed? && Record(Do(s, step), db)
  {}

  lemma SendRecord(s: Sys, step: Step, db: Db)
    requires Inv(s, db) && Enabled(s, step) && (step.RunUse? || step.RunEnd?)
    ensures Record(Do(s, step), db)
  {
    var a := s.acts[step.t];
    SendFacts(s, Trx(a.trx), if a.Using? then Event.Exec(a.stmt) else Event.Finish(a.commit), db);
  }

  lemma WrapperRecord(s: Sys, step: Step, db: Db)
    requires Inv(s, db) && Enabled(s, step)
    requires step.StartUse? || step.FreeUse? || step.StartEnd? || step.FlagEnd?
    ensures Record(Do(s, step), db)
  {}

  lemma ExitRecord(s: Sys, step: Step, db: Db)
    requires Inv(s, db) && Enabled(s, step) && (step.Exit? || step.Leave?) && !Leaky(s, step)
    ensures Record(Do(s, step), db)
  {}

  lemma FinishRecord(s: Sys, w: TrxId, db: Db)
    requires Inv(s, db) && Enabled(s, FinishExit(w))
    ensures Record(Do(s, FinishExit(w)), db)
  {
    SendFacts(s, Trx(w), Event.Finish(s.trxs[w].phase.todo.value), db);
  }

  lemma AccountedKept(s: Sys, step: Step, db: Db)
    requires Inv(s, db) && Enabled(s, step) && !Autocommit(step) && !Context(step)
    ensures Accounted(Do(s, step))
  {
    if step.RunUse? || step.RunEnd? {
      AccountedSend(s, step, db);
    } else if !step.FlagEnd? {
      StillEnded(s, step);
    }
  }

  lemma StillEnded(s: Sys, step: Step)
    requires Enabled(s, step) && !Autocommit(step) && !Context(step) && !step.FlagEnd?
    ensures forall t :: RawEnded(s, t) ==> RawEnded(Do(s, step), t)
  {}

  lemma AccountedSend(s: Sys, step: Step, db: Db)
    requires Inv(s, db) && Enabled(s, step) && (step.RunUse? || step.RunEnd?)
    ensures Accounted(Do(s, step))
  {
    StillEnded(s, step);
    if step.RunEnd? {
      assert RawEnded(Do(s, step), step.t);
    } else {
      SendFacts(s, Trx(s.acts[step.t].trx), Event.Exec(s.acts[step.t].stmt), db);
    }
  }

  lemma AccountedElsewhere(s: Sys, step: Step, db: Db)
    requires Inv(s, db) && Enabled(s, step) && (Autocommit(step) || Context(step))
    ensures Accounted(Do(s, step))
  {}

  lemma StepKeepsInv(s: Sys, step: Step, db: Db)
    requires Inv(s, db) && Enabled(s, step) && !Leaky(s, step)
    ensures Inv(Do(s, step), db)
  {
    if Autocommit(step) || Context(step) {
      AccountedElsewhere(s, step, db);
    } else {
      AccountedKept(s, step, db);
    }
    if step.StartSingle? || step.RunSingle? || step.FreeSingle? {
      AutocommitOwnership(s, step);
      SingleRecord(s, step, db);
    } else if step.StartBatch? {
      AutocommitOwnership(s, step);
      StartBatchRecord(s, step.t, step.s, step.ok, db);
    } else if step.BeginBatch? {
      AutocommitOwnership(s, step);
      BeginBatchRecord(s, step.t, db);
    } else if step.RunBatch? || step.EndBatch? || step.FreeBatch? {
      AutocommitOwnership(s, step);
      BatchRecord(s, step, db);
    } else if step.Enter? {
      EnterOwnership(s, step);
      EnterRecord(s, step.w, db);
    } else if step.ClearRaw? || step.BeginRaw? {
      BeginRecord(s, step, db);
      EnterOwnership(s, step);
    } else if step.StartUse? || step.FreeUse? {
      UseOwnership(s, step);
      WrapperRecord(s, step, db);
    } else if step.StartEnd? || step.FlagEnd? {
      EndOwnership(s, step);
      WrapperRecord(s, step, db);
    } else if step.RunUse? {
      UseOwnership(s, step);
      SendRecord(s, step, db);
    } else if step.RunEnd? {
      EndOwnership(s, step);
      SendRecord(s, step, db);
    } else if step.FinishExit? {
      ExitOwnership(s, step);
      FinishRecord(s, step.w, db);
    } else {
      ExitOwnership(s, step);
      ExitRecord(s, step, db);
    }
  }

  // ---- Main results ----------------------------------------------------------------------------

  lemma {:induction false} RunKeepsInv(s: Sys, steps: seq<Step>, db: Db)
    requires Inv(s, db) && Run(s, steps)
    ensures Inv(After(s, steps), db)
    decreases |steps|
  {
    if steps != [] {
      StepKeepsInv(s, steps[0], db);
      RunKeepsInv(Do(s, steps[0]), steps[1..], db);
    }
  }

  /** Whatever the tasks do and however they interleave: the committed database is the one obtained
      by executing the lock holds one after the other, each transaction whole or not at all. */
  lemma CommittedIsSerial(db: Db, steps: seq<Step>)
    requires Run(Init(db), steps)
    ensures var s := After(Init(db), steps); s.raw.Committed() == Replay(db, s.history)
  {
    RunKeepsInv(Init(db), steps, db);
  }

  /** Everything sent down the connection during a hold comes from the holder; a transaction is open
      only while its wrapper (or a batch) holds the lock, and then it sees what came before it plus
      its own statements. BEGIN never fails. */
  lemma OnlyTheHolderActs(db: Db, steps: seq<Step>)
    requires Run(Init(db), steps)
    ensures var s := After(Init(db), steps);
            && (forall h <- s.history, e <- h.log :: e.0 == h.owner)
            && (s.lock == None ==> s.raw.Closed?)
            && (s.raw.Open? ==> s.history != [] && s.lock == Some(Current(s).owner)
                                && s.raw.working == InProgress(s, db))
            && (forall w <- s.trxs :: s.trxs[w].phase != Failed)
  {
    RunKeepsInv(Init(db), steps, db);
  }

  /** Holds are recorded in the order in which the lock was acquired: a step either adds one hold
      for the task or wrapper that just got the lock, or adds to the last hold; the others are
      frozen. */
  lemma StepExtendsHistory(s: Sys, step: Step)
    requires Enabled(s, step)
    ensures var s' := Do(s, step);
            if s'.lock.Some? && s.lock == None then
              |s'.history| == |s.history| + 1 && s'.history[..|s.history|] == s.history
              && Current(s') == Hold(s'.lock.value, !step.StartSingle?, [])
            else
              |s'.history| == |s.history| && forall i :: 0 <= i < |s.history| - 1 ==> s'.history[i] == s.history[i]
  {}

  lemma {:induction false} RunFreezesHistory(s: Sys, steps: seq<Step>)
    requires Run(s, steps)
    ensures var s' := After(s, steps);
            |s'.history| >= |s.history| && forall i :: 0 <= i < |s.history| - 1 ==> s'.history[i] == s.history[i]
    decreases |steps|
  {
    if steps != [] {
      var s1 := Do(s, steps[0]);
      StepExtendsHistory(s, steps[0]);
      RunFreezesHistory(s1, steps[1..]);
      forall i | 0 <= i < |s.history| - 1 ensures After(s1, steps[1..]).history[i] == s.history[i] {
        assert s1.history[i] == s.history[i];
      }
    }
  }

  /** Leaving a block: unless it is left by TransactionManagementError with its transaction
      unfinalised, the lock is free in the end and no transaction is open. */
  lemma ExitCloses(s: Sys, w: TrxId, outcome: Outcome, db: Db)
    requires Inv(s, db) && Enabled(s, Exit(w, outcome)) && !Leaky(s, Exit(w, outcome))
    ensures var s1 := Do(s, Exit(w, outcome));
            if OnExit(s.trxs[w].finalized, outcome).None?
            then Enabled(s1, Leave(w)) && FreeAndClosed(Do(s1, Leave(w)))
            else Enabled(s1, FinishExit(w)) && Enabled(Do(s1, FinishExit(w)), Leave(w))
                 && FreeAndClosed(Do(Do(s1, FinishExit(w)), Leave(w)))
  {
    var s1 := Do(s, Exit(w, outcome));
    StepKeepsInv(s, Exit(w, outcome), db);
    if OnExit(s.trxs[w].finalized, outcome).None? {
      LeaveCloses(s1, w, db);
    } else {
      StepKeepsInv(s1, FinishExit(w), db);
      LeaveCloses(Do(s1, FinishExit(w)), w, db);
    }
  }

  predicate FreeAndClosed(s: Sys) {
    s.lock == None && s.raw.Closed?
  }

  lemma LeaveCloses(s: Sys, w: TrxId, db: Db)
    requires Inv(s, db) && Enabled(s, Leave(w))
    ensures FreeAndClosed(Do(s, Leave(w)))
  {
    StepKeepsInv(s, Leave(w), db);
  }

  /** The one exception: a block left by TransactionManagementError with its transaction
      unfinalised frees the lock while the transaction is still open. */
  lemma LeakyExitLeavesOpen(s: Sys, w: TrxId, db: Db)
    requires Inv(s, db) && Enabled(s, Exit(w, ManagementError)) && Leaky(s, Exit(w, ManagementError))
    ensures var s1 := Do(s, Exit(w, ManagementError));
            Enabled(s1, Leave(w)) && Do(s1, Leave(w)).lock == None && Do(s1, Leave(w)).raw.Open?
  {}

  /** What such a leak leads to: the next transaction's start commits the abandoned statements. */
  lemma LeakIsCommittedByNextStart(s: Sys, w: TrxId, w': TrxId, db: Db)
    requires Inv(s, db) && Enabled(s, Exit(w, ManagementError)) && Leaky(s, Exit(w, ManagementError))
    requires w' !in s.trxs
    ensures var s2 := Do(Do(s, Exit(w, ManagementError)), Leave(w));
            && Enabled(s2, Enter(w')) && Enabled(Do(s2, Enter(w')), ClearRaw(w'))
            && Do(Do(s2, Enter(w')), ClearRaw(w')).raw.Committed() == InProgress(s, db)
  {
    LeakyExitLeavesOpen(s, w, db);
  }

  lemma OneStepMore(s: Sys, step: Step, rest: seq<Step>)
    requires Enabled(s, step) && !Leaky(s, step) && Run(Do(s, step), rest)
    ensures Run(s, [step] + rest) && After(s, [step] + rest) == After(Do(s, step), rest)
  {
    assert ([step] + rest)[1..] == rest;
  }

  /** Transaction 0 has begun and executed one statement. */
  function InTransaction(db: Db, f: Stmt): Sys {
    Sys(Open(db, f(db)), Some(Trx(0)), map[0 := TrxState(Active, false, None)], map[],
        [Hold(Trx(0), true, [(Trx(0), Event.Exec(f))])])
  }

  lemma TransactionBegins(db: Db)
    ensures var steps := [Enter(0)] + ([ClearRaw(0)] + ([BeginRaw(0)] + []));
            var s := Sys(Open(db, db), Some(Trx(0)), map[0 := TrxState(Active, false, None)], map[],
                         [Hold(Trx(0), true, [])]);
            Run(Init(db), steps) && After(Init(db), steps) == s
  {
    var s2 := Do(Do(Init(db), Enter(0)), ClearRaw(0));
    assert Do(s2, BeginRaw(0)).trxs == map[0 := TrxState(Active, false, None)];
    ThreeStepsMore(Init(db), Enter(0), ClearRaw(0), BeginRaw(0));
  }

  /** Three steps of one wrapper's statement. */
  lemma StatementStates(db: Db, f: Stmt)
    ensures var s := Sys(Open(db, db), Some(Trx(0)), map[0 := TrxState(Active, false, None)], map[],
                         [Hold(Trx(0), true, [])]);
            && Enabled(s, StartUse(0, 0, f)) && Enabled(Do(s, StartUse(0, 0, f)), RunUse(0))
            && var s2 := Do(Do(s, StartUse(0, 0, f)), RunUse(0));
               Enabled(s2, FreeUse(0)) && Do(s2, FreeUse(0)) == InTransaction(db, f)
  {
    var s := Sys(Open(db, db), Some(Trx(0)), map[0 := TrxState(Active, false, None)], map[], [Hold(Trx(0), true, [])]);
    var s1 := Do(s, StartUse(0, 0, f));
    var s2 := Do(s1, RunUse(0));
    assert s1.history[0].log + [(Trx(0), Event.Exec(f))] == [(Trx(0), Event.Exec(f))];
    assert s2.history == [Hold(Trx(0), true, [(Trx(0), Event.Exec(f))])];
    assert Do(s2, FreeUse(0)).acts == map[] && Do(s2, FreeUse(0)).trxs == s.trxs;
  }

  lemma StatementRuns(db: Db, f: Stmt)
    ensures var steps := [StartUse(0, 0, f)] + ([RunUse(0)] + ([FreeUse(0)] + []));
            var s := Sys(Open(db, db), Some(Trx(0)), map[0 := TrxState(Active, false, None)], map[],
                         [Hold(Trx(0), true, [])]);
            Run(s, steps) && After(s, steps) == InTransaction(db, f)
  {
    var s := Sys(Open(db, db), Some(Trx(0)), map[0 := TrxState(Active, false, None)], map[], [Hold(Trx(0), true, [])]);
    StatementStates(db, f);
    ThreeStepsMore(s, StartUse(0, 0, f), RunUse(0), FreeUse(0));
  }

  lemma ThreeStepsMore(s: Sys, a: Step, b: Step, c: Step)
    requires Enabled(s, a) && !Leaky(s, a)
    requires Enabled(Do(s, a), b) && !Leaky(Do(s, a), b)
    requires Enabled(Do(Do(s, a), b), c) && !Leaky(Do(Do(s, a), b), c)
    ensures Run(s, [a] + ([b] + ([c] + [])))
    ensures After(s, [a] + ([b] + ([c] + []))) == Do(Do(Do(s, a), b), c)
  {
    OneStepMore(Do(Do(s, a), b), c, []);
    OneStepMore(Do(s, a), b, [c] + []);
    OneStepMore(s, a, [b] + ([c] + []));
  }

  lemma {:induction false} RunJoins(s: Sys, a: seq<Step>, b: seq<Step>)
    requires Run(s, a) && Run(After(s, a), b)
    ensures Run(s, a + b) && After(s, a + b) == After(After(s, a), b)
    decreases |a|
  {
    if a == [] {
      assert a + b == b;
    } else {
      RunJoins(Do(s, a[0]), a[1..], b);
      assert a + b == [a[0]] + (a[1..] + b);
      OneStepMore(s, a[0], a[1..] + b);
    }
  }

  /** Left by TransactionManagementError at this point, the transaction has its statement committed by
      the start of the next one. */
  lemma LeaksFrom(db: Db, f: Stmt)
    ensures var s := InTransaction(db, f);
            && s.raw.Committed() == db && Enabled(s, Exit(0, ManagementError)) && Leaky(s, Exit(0, ManagementError))
            && var s2 := Do(Do(s, Exit(0, ManagementError)), Leave(0));
               && Enabled(s2, Enter(1)) && Enabled(Do(s2, Enter(1)), ClearRaw(1))
               && Do(Do(s2, Enter(1)), ClearRaw(1)).raw.Committed() == f(db)
  {}

  /** Such a leak is reached from the start: a transaction begins and executes `f`, its block is left by
      TransactionManagementError, and the start of the next transaction commits `f`. */
  lemma LeakIsReachable(db: Db, f: Stmt)
    ensures var steps := [Enter(0), ClearRaw(0), BeginRaw(0), StartUse(0, 0, f), RunUse(0), FreeUse(0)];
            Run(Init(db), steps) && After(Init(db), steps) == InTransaction(db, f)
    ensures var s := InTransaction(db, f);
            && s.raw.Committed() == db && Enabled(s, Exit(0, ManagementError)) && Leaky(s, Exit(0, ManagementError))
            && var s2 := Do(Do(s, Exit(0, ManagementError)), Leave(0));
               && Enabled(s2, Enter(1)) && Enabled(Do(s2, Enter(1)), ClearRaw(1))
               && Do(Do(s2, Enter(1)), ClearRaw(1)).raw.Committed() == f(db)
  {
    StepsJoin(db, f);
    LeaksFrom(db, f);
  }

  lemma StepsJoin(db: Db, f: Stmt)
    ensures var steps := [Enter(0), ClearRaw(0), BeginRaw(0), StartUse(0, 0, f), RunUse(0), FreeUse(0)];
            Run(Init(db), steps) && After(Init(db), steps) == InTransaction(db, f)
  {
    TransactionBegins(db);
    StatementRuns(db, f);
    var a := [Enter(0)] + ([ClearRaw(0)] + ([BeginRaw(0)] + []));
    var b := [StartUse(0, 0, f)] + ([RunUse(0)] + ([FreeUse(0)] + []));
    RunJoins(Init(db), a, b);
    assert a + b == [Enter(0), ClearRaw(0), BeginRaw(0), StartUse(0, 0, f), RunUse(0), FreeUse(0)];
  }

  // ---- One statement at a time through a wrapper -----------------------------------------------

  /** The task is executing a statement through this wrapper. */
  predicate Executing(s: Sys, t: TaskId, w: TrxId) {
    t in s.acts && s.acts[t].Using? && s.acts[t].trx == w
  }

  /** A wrapper's own lock is held by the task that executes a statement through it, and by no other. */
  ghost predicate WrapperLocks(s: Sys) {
    && (forall t <- s.acts :: s.acts[t].Using? ==> s.acts[t].trx in s.trxs)
    && forall w <- s.trxs, t: TaskId :: s.trxs[w].lock == Some(t) <==> Executing(s, t, w)
  }

  lemma LocksElsewhere(s: Sys, step: Step)
    requires WrapperLocks(s) && Enabled(s, step)
    requires Autocommit(step) || step.StartEnd? || step.RunEnd? || step.FlagEnd?
    ensures WrapperLocks(Do(s, step))
  {
    var s' := Do(s, step);
    forall w <- s'.trxs, t: TaskId
      ensures s'.trxs[w].lock == s.trxs[w].lock && (Executing(s', t, w) <==> Executing(s, t, w))
    {}
  }

  lemma LocksAtContexts(s: Sys, step: Step)
    requires WrapperLocks(s) && Enabled(s, step) && Context(step)
    ensures WrapperLocks(Do(s, step))
  {
    var s' := Do(s, step);
    assert s'.acts == s.acts;
    forall w <- s.trxs ensures s'.trxs[w].lock == s.trxs[w].lock {}
  }

  lemma LocksAtStart(s: Sys, t: TaskId, w: TrxId, f: Stmt)
    requires WrapperLocks(s) && Enabled(s, StartUse(t, w, f))
    ensures WrapperLocks(Do(s, StartUse(t, w, f)))
  {
    assert !Executing(s, t, w);
  }

  lemma LocksAtRun(s: Sys, t: TaskId)
    requires WrapperLocks(s) && Enabled(s, RunUse(t))
    ensures WrapperLocks(Do(s, RunUse(t)))
  {
    var s' := Do(s, RunUse(t));
    forall u: TaskId, w: TrxId ensures Executing(s', u, w) <==> Executing(s, u, w) {}
  }

  lemma LocksAtFree(s: Sys, t: TaskId)
    requires WrapperLocks(s) && Enabled(s, FreeUse(t))
    ensures WrapperLocks(Do(s, FreeUse(t)))
  {
    assert Executing(s, t, s.acts[t].trx);
  }

  lemma StepKeepsLocks(s: Sys, step: Step)
    requires WrapperLocks(s) && Enabled(s, step)
    ensures WrapperLocks(Do(s, step))
  {
    match step
    case StartUse(t, w, f) => LocksAtStart(s, t, w, f);
    case RunUse(t) => LocksAtRun(s, t);
    case FreeUse(t) => LocksAtFree(s, t);
    case _ =>
      if Context(step) {
        LocksAtContexts(s, step);
      } else {
        LocksElsewhere(s, step);
      }
  }

  lemma {:induction false} RunKeepsLocks(s: Sys, steps: seq<Step>)
    requires WrapperLocks(s) && Run(s, steps)
    ensures WrapperLocks(After(s, steps))
    decreases |steps|
  {
    if steps != [] {
      StepKeepsLocks(s, steps[0]);
      RunKeepsLocks(Do(s, steps[0]), steps[1..]);
    }
  }

  /** In every interleaving at most one task is executing a statement through a wrapper. */
  lemma OneStatementAtATime(db: Db, steps: seq<Step>, t: TaskId, u: TaskId, w: TrxId)
    requires Run(Init(db), steps)
    requires Executing(After(Init(db), steps), t, w) && Executing(After(Init(db), steps), u, w)
    ensures t == u
  {
    RunKeepsLocks(Init(db), steps);
    assert w in After(Init(db), steps).trxs;
  }

  // ---- What a step does to the database --------------------------------------------------------

  /** The replay of the holds before the one that is going on. */
  ghost function Earlier(s: Sys, db: Db): Db
    requires s.history != []
  {
    Replay(db, s.history[..|s.history| - 1])
  }

  lemma ActiveIsOpen(s: Sys, w: TrxId, db: Db)
    requires Inv(s, db) && IsActive(s, w)
    ensures s.history != [] && Current(s).owner == Trx(w) && Current(s).transactional
    ensures !s.trxs[w].finalized && Unused(s, w) ==> s.raw == Open(Earlier(s, db), InProgress(s, db))
  {}

  /** Leaving a block whose transaction is not finalised: after a normal end the database is what the
      transaction saw, after an exception what the holds before it made. */
  lemma ExitDecides(s: Sys, w: TrxId, outcome: Outcome, db: Db)
    requires Inv(s, db) && Enabled(s, Exit(w, outcome)) && !s.trxs[w].finalized && outcome != ManagementError
    ensures s.history != [] && Enabled(Do(s, Exit(w, outcome)), FinishExit(w))
    ensures Do(Do(s, Exit(w, outcome)), FinishExit(w)).raw
            == Closed(if outcome == Normal then InProgress(s, db) else Earlier(s, db))
  {
    ActiveIsOpen(s, w, db);
  }

  /** Leaving a block whose transaction is finalised sends nothing any more. */
  lemma ExitAfterEnd(s: Sys, w: TrxId, outcome: Outcome)
    requires Enabled(s, Exit(w, outcome)) && s.trxs[w].finalized
    ensures Enabled(Do(s, Exit(w, outcome)), Leave(w)) && Do(Do(s, Exit(w, outcome)), Leave(w)).raw == s.raw
  {}

  /** An explicit end of a transaction that is still open. */
  lemma EndDecides(s: Sys, t: TaskId, db: Db)
    requires Inv(s, db) && Enabled(s, RunEnd(t)) && s.raw.Open?
    ensures s.history != []
    ensures Do(s, RunEnd(t)).raw == Closed(if s.acts[t].commit then InProgress(s, db) else Earlier(s, db))
  {}

  /** A batch that ran: all of it when it succeeded, none of it otherwise. */
  lemma BatchDecides(s: Sys, t: TaskId, db: Db)
    requires Inv(s, db) && Enabled(s, EndBatch(t))
    ensures s.history != []
    ensures Do(s, EndBatch(t)).raw == Closed(if s.acts[t].ok then InProgress(s, db) else Earlier(s, db))
  {}

  // ---- Whole activities ------------------------------------------------------------------------

  lemma FreeMeansClosed(s: Sys, db: Db)
    requires Inv(s, db) && s.lock == None
    ensures s.raw == Closed(s.raw.Committed())
  {}

  /** One autocommit statement: it takes effect at once, and everything else is as before. */
  lemma SingleFromStartToEnd(s: Sys, t: TaskId, f: Stmt, db: Db)
    requires Inv(s, db) && Enabled(s, StartSingle(t, f))
    ensures var s1 := Do(s, StartSingle(t, f));
            && Enabled(s1, RunSingle(t)) && Enabled(Do(s1, RunSingle(t)), FreeSingle(t))
            && var s3 := Do(Do(s1, RunSingle(t)), FreeSingle(t));
               s3.raw == Closed(f(s.raw.Committed())) && s3.lock == None && s3.acts == s.acts && s3.trxs == s.trxs
  {
    FreeMeansClosed(s, db);
  }

  /** A batch: all of its rows take effect or none, and everything else is as before. */
  lemma BatchFromStartToEnd(s: Sys, t: TaskId, f: Stmt, ok: bool, db: Db)
    requires Inv(s, db) && Enabled(s, StartBatch(t, f, ok))
    ensures var s1 := Do(s, StartBatch(t, f, ok));
            && Enabled(s1, BeginBatch(t)) && Enabled(Do(s1, BeginBatch(t)), RunBatch(t))
            && var s3 := Do(Do(s1, BeginBatch(t)), RunBatch(t));
               && Enabled(s3, EndBatch(t)) && Enabled(Do(s3, EndBatch(t)), FreeBatch(t))
               && var s5 := Do(Do(s3, EndBatch(t)), FreeBatch(t));
                  && s5.raw == Closed(if ok then f(s.raw.Committed()) else s.raw.Committed())
                  && s5.lock == None && s5.acts == s.acts && s5.trxs == s.trxs
  {
    FreeMeansClosed(s, db);
    var s3 := BatchRuns(s, t, f, ok);
    var s5 := BatchEnds(s3, t);
    assert s5.acts == s.acts;
  }

  lemma BatchRuns(s: Sys, t: TaskId, f: Stmt, ok: bool) returns (s3: Sys)
    requires Enabled(s, StartBatch(t, f, ok)) && s.raw.Closed?
    ensures var s1 := Do(s, StartBatch(t, f, ok));
            && Enabled(s1, BeginBatch(t)) && Enabled(Do(s1, BeginBatch(t)), RunBatch(t))
            && s3 == Do(Do(s1, BeginBatch(t)), RunBatch(t))
    ensures s3.raw == Open(s.raw.db, f(s.raw.db)) && s3.lock == Some(Task(t)) && s3.trxs == s.trxs
    ensures s3.acts == s.acts[t := Batch(f, ok, Ran)]
  {
    s3 := Do(Do(Do(s, StartBatch(t, f, ok)), BeginBatch(t)), RunBatch(t));
  }

  lemma BatchEnds(s: Sys, t: TaskId) returns (s2: Sys)
    requires Enabled(s, EndBatch(t)) && s.raw.Open?
    ensures Enabled(Do(s, EndBatch(t)), FreeBatch(t)) && s2 == Do(Do(s, EndBatch(t)), FreeBatch(t))
    ensures s2.raw == Closed(if s.acts[t].ok then s.raw.working else s.raw.committed)
    ensures s2.lock == None && s2.trxs == s.trxs && s2.acts == s.acts - {t}
  {
    s2 := Do(Do(s, EndBatch(t)), FreeBatch(t));
  }

  /** Entering a block: the transaction starts on what is committed, and the wrapper holds the lock. */
  lemma BlockStarts(s: Sys, w: TrxId, db: Db)
    requires Inv(s, db) && Enabled(s, Enter(w))
    ensures var s1 := Do(s, Enter(w));
            && Enabled(s1, ClearRaw(w)) && Enabled(Do(s1, ClearRaw(w)), BeginRaw(w))
            && var s3 := Do(Do(s1, ClearRaw(w)), BeginRaw(w));
               && s3.raw == Open(s.raw.Committed(), s.raw.Committed()) && s3.lock == Some(Trx(w))
               && s3.acts == s.acts && s3.trxs == s.trxs[w := TrxState(Active, false, None)]
  {
    FreeMeansClosed(s, db);
  }

  /** A statement through a wrapper: inside its transaction it changes what the transaction sees and
      nothing that is committed; once the transaction is over it takes effect at once. */
  lemma UseFromStartToEnd(s: Sys, t: TaskId, w: TrxId, f: Stmt)
    requires Enabled(s, StartUse(t, w, f))
    ensures var s1 := Do(s, StartUse(t, w, f));
            && Enabled(s1, RunUse(t)) && Enabled(Do(s1, RunUse(t)), FreeUse(t))
            && var s3 := Do(Do(s1, RunUse(t)), FreeUse(t));
               && s3.raw == (match s.raw case Open(c, x) => Open(c, f(x)) case Closed(d) => Closed(f(d)))
               && s3.lock == s.lock && s3.acts == s.acts && s3.trxs == s.trxs
  {
    var s2 := Do(Do(s, StartUse(t, w, f)), RunUse(t));
    assert s2.acts == s.acts[t := Using(w, f, true)];
    var s3 := Do(s2, FreeUse(t));
    assert s3.acts == s.acts && s3.trxs == s.trxs;
  }

  /** An explicit end through a wrapper; a second one changes nothing (it raises). */
  lemma EndFromStartToEnd(s: Sys, t: TaskId, w: TrxId, commit: bool)
    requires Enabled(s, StartEnd(t, w, commit))
    ensures s.trxs[w].finalized ==> Do(s, StartEnd(t, w, commit)) == s
    ensures !s.trxs[w].finalized && s.raw.Open? ==>
              var s1 := Do(s, StartEnd(t, w, commit));
              && Enabled(s1, RunEnd(t)) && Enabled(Do(s1, RunEnd(t)), FlagEnd(t))
              && var s3 := Do(Do(s1, RunEnd(t)), FlagEnd(t));
                 && s3.raw == Closed(if commit then s.raw.working else s.raw.committed)
                 && s3.acts == s.acts && s3.trxs == s.trxs[w := s.trxs[w].(finalized := true)]
  {
    if !s.trxs[w].finalized && s.raw.Open? {
      var s2 := Do(Do(s, StartEnd(t, w, commit)), RunEnd(t));
      assert s2.acts == s.acts[t := Ending(w, commit, true)];
      assert Do(s2, FlagEnd(t)).acts == s.acts;
    }
  }

  /** The task whose step it is, if it is not a step of a transaction context. */
  function TaskOf(step: Step): Option<TaskId> {
    match step
    case StartSingle(t, _) => Some(t) case RunSingle(t) => Some(t) case FreeSingle(t) => Some(t)
    case StartBatch(t, _, _) => Some(t) case BeginBatch(t) => Some(t) case RunBatch(t) => Some(t)
    case EndBatch(t) => Some(t) case FreeBatch(t) => Some(t)
    case StartUse(t, _, _) => Some(t) case RunUse(t) => Some(t) case FreeUse(t) => Some(t)
    case StartEnd(t, _, _) => Some(t) case RunEnd(t) => Some(t) case FlagEnd(t) => Some(t)
    case _ => None
  }

  /** What a task is in the middle of (which statement, on which wrapper) is changed by no step but its
      own. */
  lemma OthersLeaveItAlone(s: Sys, step: Step, t: TaskId)
    requires Enabled(s, step) && TaskOf(step) != Some(t)
    ensures t in Do(s, step).acts <==> t in s.acts
    ensures t in s.acts ==> Do(s, step).acts[t] == s.acts[t]
  {}
}
