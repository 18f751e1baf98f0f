// The database behind one raw connection, as far as the client code sees it: BEGIN, COMMIT,
// ROLLBACK and statements, with everything outside a transaction committed at once.
module RawStore {
  import opened Common

  /** The contents of a database; nothing is assumed about it. */
  type Db(!new)

  /** A statement that ran: its effect on the contents. A statement that failed has none. */
  type Stmt = Db -> Db

  datatype Raw =
    | Closed(db: Db)
    | Open(committed: Db, working: Db)
  {
    /** What another connection to the same database sees. */
    function Committed(): Db {
      match this
      case Closed(db) => db
      case Open(c, _) => c
    }

    function Exec(s: Stmt): Raw {
      match this
      case Closed(db) => Closed(s(db))
      case Open(c, w) => Open(c, s(w))
    }

    /** BEGIN inside a transaction is an error. */
    function Begin(): Option<Raw> {
      match this
      case Closed(db) => Some(Open(db, db))
      case Open(_, _) => None
    }

    /** Outside a transaction, COMMIT and ROLLBACK of the driver do nothing. */
    function Finish(commit: bool): Raw {
      match this
      case Closed(_) => this
      case Open(c, w) => Closed(if commit then w else c)
    }
  }

  /** What happened through one client: statements, and the ends of a transaction. */
  datatype Event = Exec(stmt: Stmt) | Finish(commit: bool)

  ghost predicate Finished(log: seq<Event>) {
    exists i :: 0 <= i < |log| && log[i].Finish?
  }

  /** All statements of the log, in order. */
  function ExecAll(db: Db, log: seq<Event>): Db {
    if log == [] then db
    else
      var n := |log| - 1;
      match log[n]
      case Exec(s) => s(ExecAll(db, log[..n]))
      case Finish(_) => ExecAll(db, log[..n])
  }

  /** A transaction on its own: its statements take effect together when its first end is a commit,
      none of them when it is a rollback or still missing; later statements stand alone. */
  ghost function Atomically(db: Db, log: seq<Event>): Db {
    if !Finished(log) then db
    else
      var i := FirstFinish(log);
      ExecAll(if log[i].commit then ExecAll(db, log[..i]) else db, log[i + 1..])
  }

  ghost function FirstFinish(log: seq<Event>): (i: nat)
    requires Finished(log)
    ensures i < |log| && log[i].Finish? && !Finished(log[..i])
  {
    if Finished(log[..|log| - 1]) then FirstFinish(log[..|log| - 1]) else |log| - 1
  }

  lemma FinishedGrows(log: seq<Event>, e: Event)
    ensures Finished(log + [e]) <==> Finished(log) || e.Finish?
  {
    if Finished(log) {
      var i :| 0 <= i < |log| && log[i].Finish?;
      assert (log + [e])[i].Finish?;
    }
    assert (log + [e])[|log|] == e;
  }

  lemma ExecAllGrows(db: Db, log: seq<Event>, e: Event)
    ensures ExecAll(db, log + [e]) == if e.Exec? then (e.stmt)(ExecAll(db, log)) else ExecAll(db, log)
  {
    assert (log + [e])[..|log|] == log;
  }

  /** How the meaning of a transaction changes with one more event. */
  lemma AtomicallyGrows(db: Db, log: seq<Event>, e: Event)
    ensures Atomically(db, log + [e]) ==
            if Finished(log) then (if e.Exec? then (e.stmt)(Atomically(db, log)) else Atomically(db, log))
            else if e == Event.Finish(true) then ExecAll(db, log) else db
  {
    FinishedGrows(log, e);
    if Finished(log + [e]) {
      var l := log + [e];
      assert l[..|l| - 1] == log;
      if Finished(log) {
        var i := FirstFinish(log);
        assert FirstFinish(l) == i;
        assert l[..i] == log[..i] && l[i + 1..] == log[i + 1..] + [e];
        ExecAllGrows(if l[i].commit then ExecAll(db, l[..i]) else db, log[i + 1..], e);
      } else {
        assert FirstFinish(l) == |log|;
        assert l[..|log|] == log && l[|log| + 1..] == [];
      }
    }
  }

  lemma FirstFinishUnique(log: seq<Event>, i: nat)
    requires i < |log| && log[i].Finish? && !Finished(log[..i])
    ensures Finished(log) && FirstFinish(log) == i
  {
    var j := FirstFinish(log);
    assert forall k :: 0 <= k < i ==> log[..i][k] == log[k];
    assert forall k :: 0 <= k < j ==> log[..j][k] == log[k];
  }

  /** The raw connection after a sequence of events. */
  function Sent(raw: Raw, log: seq<Event>): Raw {
    if log == [] then raw
    else
      var before := Sent(raw, log[..|log| - 1]);
      match log[|log| - 1]
      case Exec(s) => before.Exec(s)
      case Finish(commit) => before.Finish(commit)
  }

  lemma {:induction false} SentAppends(raw: Raw, a: seq<Event>, b: seq<Event>)
    ensures Sent(raw, a + b) == Sent(Sent(raw, a), b)
  {
    if b == [] {
      assert a + b == a;
    } else {
      assert (a + b)[..|a + b| - 1] == a + b[..|b| - 1];
      SentAppends(raw, a, b[..|b| - 1]);
    }
  }

  /** After BEGIN, whatever is sent: the connection is in a transaction until the first end, and the
      database has what the events mean taken atomically. */
  lemma {:induction false} SentIsAtomic(db: Db, log: seq<Event>)
    ensures Sent(Open(db, db), log) ==
            if Finished(log) then Closed(Atomically(db, log)) else Open(db, ExecAll(db, log))
  {
    if log != [] {
      var before, e := log[..|log| - 1], log[|log| - 1];
      assert log == before + [e];
      SentIsAtomic(db, before);
      FinishedGrows(before, e);
      AtomicallyGrows(db, before, e);
      ExecAllGrows(db, before, e);
    }
  }
}
