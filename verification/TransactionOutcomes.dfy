// What is in the database after `async with in_transaction():`, said by the statements of the body and
// the exception that leaves it (tortoise/backends/base/client.py, `__aexit__` of TransactionContext and
// NestedTransactionContext), without the events, flags and decisions on the way.
module TransactionOutcomes {
  import opened Common
  import opened RawStore
  import opened TransactionContexts

  // ---- Reading a body --------------------------------------------------------------------------

  /** No explicit commit or rollback, and no nested context whose failure could be caught. */
  ghost predicate Quiet(body: seq<Action>, nested: bool)
    decreases body
  {
    forall a <- body :: QuietAction(a, nested)
  }

  ghost predicate QuietAction(a: Action, nested: bool)
    decreases a
  {
    match a
    case Commit => false
    case Rollback => false
    case Try(body) => Quiet(body, false)
    case Nested(body) => nested && Quiet(body, nested)
    case _ => true
  }

  /** The exception that leaves the body, if any: a TransactionManagementError or another one. */
  datatype Escape = Nothing | Exception(management: bool)

  function Escapes(body: seq<Action>): Escape
    decreases body
  {
    if body == [] then Nothing
    else
      var n := |body| - 1;
      if Escapes(body[..n]) != Nothing then Escapes(body[..n]) else EscapesAction(body[n])
  }

  function EscapesAction(a: Action): Escape
    decreases a
  {
    match a
    case Raise(management) => Exception(management)
    case Nested(body) => Escapes(body)
    case _ => Nothing
  }

  /** The statements executed before that, in order. */
  function Executed(body: seq<Action>): seq<Stmt>
    decreases body
  {
    if body == [] then []
    else
      var n := |body| - 1;
      Executed(body[..n]) + if Escapes(body[..n]) == Nothing then ExecutedAction(body[n]) else []
  }

  function ExecutedAction(a: Action): seq<Stmt>
    decreases a
  {
    match a
    case Execute(s) => [s]
    case Try(body) => Executed(body)
    case Nested(body) => Executed(body)
    case _ => []
  }

  function Applied(db: Db, ss: seq<Stmt>): Db {
    if ss == [] then db else ss[|ss| - 1](Applied(db, ss[..|ss| - 1]))
  }

  // ---- What is sent ----------------------------------------------------------------------------

  function Execs(ss: seq<Stmt>): seq<Event> {
    seq(|ss|, i requires 0 <= i < |ss| => Exec(ss[i]))
  }

  function OutcomeOf(e: Escape): Outcome {
    match e
    case Nothing => Normal
    case Exception(management) => if management then ManagementError else OtherError
  }

  lemma ExecsAppend(a: seq<Stmt>, b: seq<Stmt>)
    ensures Execs(a + b) == Execs(a) + Execs(b)
  {}

  lemma {:induction false} ExecsApplied(db: Db, ss: seq<Stmt>)
    ensures ExecAll(db, Execs(ss)) == Applied(db, ss) && !Finished(Execs(ss))
  {
    if ss != [] {
      assert Execs(ss)[..|ss| - 1] == Execs(ss[..|ss| - 1]);
      ExecsApplied(db, ss[..|ss| - 1]);
    }
  }

  /** A quiet body sends its statements; one without nested contexts, or in a transaction that is over,
      sends nothing else, and otherwise only a rollback may follow, when an exception other than
      TransactionManagementError left a nested context. */
  ghost predicate SendsQuietly(body: seq<Action>, nested: bool, finalized: bool, e: Effect) {
    && e.outcome == OutcomeOf(Escapes(body))
    && (|| (e.events == Execs(Executed(body)) && e.finalized == finalized)
        || (nested && !finalized && e.finalized && Escapes(body) == Exception(false)
            && e.events == Execs(Executed(body)) + [Finish(false)]))
  }

  lemma {:induction false} QuietBody(pooled: bool, held: bool, body: seq<Action>, nested: bool, finalized: bool)
    requires Quiet(body, nested) && OfBody(pooled, held, body, finalized).outcome != Stuck
    ensures SendsQuietly(body, nested, finalized, OfBody(pooled, held, body, finalized))
    decreases body, 0
  {
    if body != [] {
      var n := |body| - 1;
      assert forall a <- body[..n] :: a in body;
      assert body[n] in body;
      QuietBody(pooled, held, body[..n], nested, finalized);
      if Escapes(body[..n]) == Nothing {
        QuietOne(pooled, held, body[n], nested, finalized);
        ExecsAppend(Executed(body[..n]), ExecutedAction(body[n]));
        var r, a := OfBody(pooled, held, body[..n], finalized), OfAction(pooled, held, body[n], finalized);
        assert r.events + (Execs(ExecutedAction(body[n])) + [Finish(false)])
               == r.events + Execs(ExecutedAction(body[n])) + [Finish(false)];
      } else {
        assert Executed(body) == Executed(body[..n]);
      }
    }
  }

  ghost predicate ActionQuietly(a: Action, nested: bool, finalized: bool, e: Effect) {
    && e.outcome == OutcomeOf(EscapesAction(a))
    && (|| (e.events == Execs(ExecutedAction(a)) && e.finalized == finalized)
        || (nested && !finalized && e.finalized && EscapesAction(a) == Exception(false)
            && e.events == Execs(ExecutedAction(a)) + [Finish(false)]))
  }

  lemma {:induction false} QuietOne(pooled: bool, held: bool, a: Action, nested: bool, finalized: bool)
    requires QuietAction(a, nested) && OfAction(pooled, held, a, finalized).outcome != Stuck
    ensures ActionQuietly(a, nested, finalized, OfAction(pooled, held, a, finalized))
    decreases a, 0
  {
    match a
    case Try(body) => QuietBody(pooled, held, body, false, finalized);
    case Nested(body) => QuietBody(pooled, true, body, nested, finalized);
    case _ =>
  }

  // ---- The outcome of a block ------------------------------------------------------------------

  /** The connection after a block (what `RunBlock` leaves behind on a connection whose database is
      `db`): all statements committed when the body ends normally, none when an exception leaves it, and
      a transaction still open when that exception is a TransactionManagementError. */
  lemma QuietOutcome(pooled: bool, body: seq<Action>, db: Db)
    requires Quiet(body, true) && OfBody(pooled, false, body, false).outcome != Stuck
    ensures Sent(Open(db, db), OfBlock(pooled, body)) ==
            match Escapes(body)
            case Nothing => Closed(Applied(db, Executed(body)))
            case Exception(management) => if management then Open(db, Applied(db, Executed(body))) else Closed(db)
  {
    QuietBody(pooled, false, body, true, false);
    var r, sent := OfBody(pooled, false, body, false), Execs(Executed(body));
    ExecsApplied(db, Executed(body));
    SentIsAtomic(db, sent);
    if r.finalized {
      assert OfBlock(pooled, body) == sent + [Finish(false)];
    } else {
      assert OfBlock(pooled, body) == sent + AtExit(false, r.outcome);
    }
    SentAppends(Open(db, db), sent, OfBlock(pooled, body)[|sent|..]);
    assert OfBlock(pooled, body) == sent + OfBlock(pooled, body)[|sent|..];
    OneEnd(Sent(Open(db, db), sent), true);
    OneEnd(Sent(Open(db, db), sent), false);
  }

  lemma OneEnd(raw: Raw, commit: bool)
    ensures Sent(raw, [Finish(commit)]) == raw.Finish(commit) && Sent(raw, []) == raw
  {
    assert [Event.Finish(commit)][..0] == [];
  }

  // ---- When the transaction ends inside the body -----------------------------------------------

  /** A body in two parts: the second runs unless the first is left by an exception. */
  lemma {:induction false} BodyInParts(pooled: bool, held: bool, a: seq<Action>, b: seq<Action>, finalized: bool)
    ensures var r, whole := OfBody(pooled, held, a, finalized), OfBody(pooled, held, a + b, finalized);
            if r.outcome != Normal then whole == r
            else
              var q := OfBody(pooled, held, b, r.finalized);
              whole.events == r.events + q.events && whole.finalized == q.finalized && whole.outcome == q.outcome
    decreases |b|
  {
    if b == [] {
      assert a + b == a;
      assert OfBody(pooled, held, a, finalized).events + [] == OfBody(pooled, held, a, finalized).events;
    } else {
      var n := |b| - 1;
      assert (a + b)[..|a + b| - 1] == a + b[..n];
      BodyInParts(pooled, held, a, b[..n], finalized);
      var r := OfBody(pooled, held, a, finalized);
      if r.outcome == Normal {
        var q := OfBody(pooled, held, b[..n], r.finalized);
        var x := OfAction(pooled, held, b[n], q.finalized);
        assert r.events + q.events + x.events == r.events + (q.events + x.events);
      }
    }
  }

  /** A block whose transaction is ended by `end` after the statements of `before`: what `after` executes
      is committed statement by statement, and nothing is sent on leaving. */
  lemma EndedInside(db: Db, before: seq<Stmt>, commit: bool, after: seq<Stmt>)
    ensures Sent(Open(db, db), Execs(before) + [Finish(commit)] + Execs(after))
            == Closed(Applied(if commit then Applied(db, before) else db, after))
  {
    var ended := if commit then Applied(db, before) else db;
    ExecsApplied(db, before);
    SentIsAtomic(db, Execs(before));
    SentAppends(Open(db, db), Execs(before), [Finish(commit)]);
    OneEnd(Open(db, Applied(db, before)), commit);
    SentAppends(Open(db, db), Execs(before) + [Finish(commit)], Execs(after));
    SentClosed(ended, after);
  }

  lemma {:induction false} SentClosed(db: Db, ss: seq<Stmt>)
    ensures Sent(Closed(db), Execs(ss)) == Closed(Applied(db, ss))
  {
    if ss != [] {
      assert Execs(ss)[..|ss| - 1] == Execs(ss[..|ss| - 1]);
      SentClosed(db, ss[..|ss| - 1]);
    }
  }

  /** An explicit commit or rollback: it decides about the statements before it, all or none; those after
      it take effect one by one, however the block is left. */
  lemma ExplicitEnd(pooled: bool, pre: seq<Action>, commit: bool, post: seq<Action>, db: Db)
    requires Quiet(pre, true) && Escapes(pre) == Nothing && Quiet(post, true)
    requires OfBody(pooled, false, pre + [if commit then Commit else Rollback] + post, false).outcome != Stuck
    ensures Sent(Open(db, db), OfBlock(pooled, pre + [if commit then Commit else Rollback] + post))
            == Closed(Applied(if commit then Applied(db, Executed(pre)) else db, Executed(post)))
  {
    var end := if commit then Commit else Rollback;
    BodyInParts(pooled, false, pre + [end], post, false);
    BodyInParts(pooled, false, pre, [end], false);
    NotStuck(pooled, pre, end, post);
    QuietBody(pooled, false, pre, true, false);
    OneAction(pooled, false, end, false);
    QuietBody(pooled, false, post, true, true);
    var e1, e2 := Execs(Executed(pre)), Execs(Executed(post));
    assert OfBlock(pooled, pre + [end] + post) == e1 + [Finish(commit)] + e2 + [];
    assert e1 + [Finish(commit)] + e2 + [] == e1 + [Finish(commit)] + e2;
    EndedInside(db, Executed(pre), commit, Executed(post));
  }

  lemma OneAction(pooled: bool, held: bool, a: Action, finalized: bool)
    ensures var r, x := OfBody(pooled, held, [a], finalized), OfAction(pooled, held, a, finalized);
            r.events == x.events && r.finalized == x.finalized && r.outcome == x.outcome
  {
    var events := OfAction(pooled, held, a, finalized).events;
    assert [a][..0] == [] && [] + events == events;
  }

  lemma NotStuck(pooled: bool, pre: seq<Action>, a: Action, post: seq<Action>)
    requires OfBody(pooled, false, pre + [a] + post, false).outcome != Stuck
    ensures OfBody(pooled, false, pre, false).outcome != Stuck
    ensures OfBody(pooled, false, pre + [a], false).outcome != Stuck
  {
    BodyInParts(pooled, false, pre + [a], post, false);
    BodyInParts(pooled, false, pre, [a], false);
  }

  /** A nested context left by an exception that the body catches: it has rolled back the whole
      transaction, the statements before the nested context included; those after it take effect one by
      one. */
  lemma CaughtNestedFailure(pooled: bool, pre: seq<Action>, inner: seq<Action>, post: seq<Action>, db: Db)
    requires Quiet(pre, true) && Escapes(pre) == Nothing && Quiet(post, true)
    requires Quiet(inner, true) && Escapes(inner) == Exception(false)
    requires OfBody(pooled, false, pre + [Try([Nested(inner)])] + post, false).outcome != Stuck
    ensures Sent(Open(db, db), OfBlock(pooled, pre + [Try([Nested(inner)])] + post))
            == Closed(Applied(db, Executed(post)))
  {
    var caught := Try([Nested(inner)]);
    BodyInParts(pooled, false, pre + [caught], post, false);
    BodyInParts(pooled, false, pre, [caught], false);
    NotStuck(pooled, pre, caught, post);
    QuietBody(pooled, false, pre, true, false);
    OneAction(pooled, false, caught, false);
    OneAction(pooled, false, Nested(inner), false);
    QuietBody(pooled, true, inner, true, false);
    QuietBody(pooled, false, post, true, true);
    var all, e2 := Executed(pre) + Executed(inner), Execs(Executed(post));
    ExecsAppend(Executed(pre), Executed(inner));
    assert OfBlock(pooled, pre + [caught] + post) == Execs(all) + [Finish(false)] + e2 by {
      assert Execs(Executed(pre)) + (Execs(Executed(inner)) + [Finish(false)]) == Execs(all) + [Finish(false)];
    }
    EndedInside(db, all, false, Executed(post));
  }
}
