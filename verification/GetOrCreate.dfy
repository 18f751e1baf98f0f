// Concurrent `get_or_create` calls (tortoise/models.py, `get_or_create` and `_create_or_get`): get,
// else insert in a transaction of its own, and on IntegrityError get again. Any number of calls run
// interleaved against one table with a unique constraint on the lookup fields, while other writers
// insert rows; rows are not deleted or re-keyed. A reader sees committed rows only, and an insert
// waits for an uncommitted row with the same unique key.
module GetOrCreate {
  import opened Common

  type CallId = nat
  type Pk = nat
  type Row = map<string, int>

  /** The model: the unique fields that the calls look up by, values of fields that no argument gives,
      the constraints that may reject a row whatever the table holds (NOT NULL, CHECK, foreign keys), and
      further unique constraints. */
  datatype Schema = Schema(unique: set<string>, base: Row, rejects: Row -> bool, others: set<set<string>>)

  datatype Call = Call(lookup: Row, defaults: Row)

  datatype Answer =
    | Returned(pk: Pk, created: bool)
    | ParamsError
    | IntegrityError
    | MultipleObjects

  /** Where a call stands, between two awaits. */
  datatype Stage =
    | Begin
    | Missing
    | InTransaction
    | Inserted(pk: Pk)
    | Refused
    | RolledBack
    | Over(answer: Answer)

  /** `creator` is not part of the program: it records which call inserted a committed row. */
  datatype Sys = Sys(rows: map<Pk, Row>, pending: map<CallId, (Pk, Row)>, next: Pk,
                     stages: map<CallId, Stage>, creator: map<Pk, CallId>)

  datatype Step =
    | Get(c: CallId)
    | Enter(c: CallId)
    | Insert(c: CallId)
    | Leave(c: CallId)
    | GetAgain(c: CallId)
    | Foreign(row: Row)

  /** One setting: the schema and the calls. Lookups name exactly the unique fields. */
  datatype World = World(schema: Schema, calls: map<CallId, Call>) {
    predicate Valid() {
      forall c <- calls :: calls[c].lookup.Keys == schema.unique
    }

    /** A row's values in the unique fields. */
    function Key(): Row -> Row {
      (row: Row) => map k | k in schema.unique && k in row :: row[k]
    }
  }

  /** Some default contradicts the lookup. */
  predicate Conflict(call: Call) {
    exists k <- call.defaults.Keys :: k in call.lookup && call.defaults[k] != call.lookup[k]
  }

  /** The row `create` inserts: `{**kwargs, **defaults}` over the model's own defaults. */
  function NewRow(w: World, call: Call): Row {
    w.schema.base + call.lookup + call.defaults
  }

  predicate Satisfies(row: Row, lookup: Row) {
    forall k <- lookup :: k in row && row[k] == lookup[k]
  }

  function Found(rows: map<Pk, Row>, lookup: Row): set<Pk> {
    set p | p in rows && Satisfies(rows[p], lookup)
  }

  predicate Taken(w: World, s: Sys, row: Row) {
    w.Key()(row) in Keys(w.Key(), s.rows)
  }

  /** Two rows break one of the further unique constraints; a missing value equals nothing. */
  predicate Clash(w: World, a: Row, b: Row) {
    exists u <- w.schema.others :: forall k <- u :: k in a && k in b && a[k] == b[k]
  }

  /** A constraint other than the unique one on the lookup fields forbids the row in this table. */
  predicate Rejected(w: World, rows: map<Pk, Row>, row: Row) {
    w.schema.rejects(row) || exists p <- rows :: Clash(w, rows[p], row)
  }

  /** Another call's uncommitted row has the same key, or clashes otherwise. */
  predicate Awaited(w: World, s: Sys, row: Row) {
    exists c <- s.pending :: w.Key()(s.pending[c].1) == w.Key()(row) || Clash(w, s.pending[c].1, row)
  }

  function Keys(key: Row -> Row, rows: map<Pk, Row>): set<Row> {
    set p | p in rows :: key(rows[p])
  }

  predicate Enabled(w: World, s: Sys, step: Step) {
    if step.Foreign? then
      w.schema.unique <= step.row.Keys && !Taken(w, s, step.row) && !Rejected(w, s.rows, step.row)
      && !Awaited(w, s, step.row)
    else
      step.c in w.calls && step.c in s.stages &&
      match step
      case Get(c) => s.stages[c] == Begin
      case Enter(c) => s.stages[c] == Missing
      case Insert(c) => s.stages[c] == InTransaction && !Awaited(w, s, NewRow(w, w.calls[c]))
      case Leave(c) => s.stages[c] == Refused || (s.stages[c].Inserted? && c in s.pending)
      case GetAgain(c) => s.stages[c] == RolledBack
  }

  ghost function Answered(found: set<Pk>, otherwise: Stage): Stage {
    if found == {} then otherwise
    else if |found| == 1 then (var p :| p in found; Over(Returned(p, false)))
    else Over(MultipleObjects)
  }

  ghost function Do(w: World, s: Sys, step: Step): Sys
    requires Enabled(w, s, step)
  {
    match step
    case Get(c) => s.(stages := s.stages[c := Answered(Found(s.rows, w.calls[c].lookup), Missing)])
    case Enter(c) =>
      s.(stages := s.stages[c := if Conflict(w.calls[c]) then Over(ParamsError) else InTransaction])
    case Insert(c) =>
      var row := NewRow(w, w.calls[c]);
      if Taken(w, s, row) || Rejected(w, s.rows, row) then s.(stages := s.stages[c := Refused])
      else s.(pending := s.pending[c := (s.next, row)], next := s.next + 1, stages := s.stages[c := Inserted(s.next)])
    case Leave(c) =>
      if s.stages[c] == Refused then s.(stages := s.stages[c := RolledBack])
      else
        var (pk, row) := s.pending[c];
        s.(rows := s.rows[pk := row], pending := s.pending - {c}, creator := s.creator[pk := c],
           stages := s.stages[c := Over(Returned(pk, true))])
    case GetAgain(c) =>
      s.(stages := s.stages[c := Answered(Found(s.rows, w.calls[c].lookup), Over(IntegrityError))])
    case Foreign(row) => s.(rows := s.rows[s.next := row], next := s.next + 1)
  }

  /** A table that obeys the unique constraint, before any call has started. */
  predicate Initial(w: World, s: Sys) {
    && s.pending == map[] && s.creator == map[] && s.stages == (map c | c in w.calls :: Begin)
    && (forall p <- s.rows :: p < s.next && w.schema.unique <= s.rows[p].Keys)
    && (forall p, q :: p in s.rows && q in s.rows && w.Key()(s.rows[p]) == w.Key()(s.rows[q]) ==> p == q)
  }

  ghost predicate Possible(w: World, s: Sys, steps: seq<Step>)
    decreases |steps|
  {
    steps == [] || (Enabled(w, s, steps[0]) && Possible(w, Do(w, s, steps[0]), steps[1..]))
  }

  ghost function After(w: World, s: Sys, steps: seq<Step>): Sys
    requires Possible(w, s, steps)
    decreases |steps|
  {
    if steps == [] then s else After(w, Do(w, s, steps[0]), steps[1..])
  }

  // ---- Rows and lookups ------------------------------------------------------------------------

  /** The row that would be created satisfies the lookup exactly when no default contradicts it. */
  lemma CreatedRowSatisfiesLookup(w: World, call: Call)
    ensures Satisfies(NewRow(w, call), call.lookup) <==> !Conflict(call)
  {
    if Conflict(call) {
      var k :| k in call.defaults.Keys && k in call.lookup && call.defaults[k] != call.lookup[k];
      assert NewRow(w, call)[k] == call.defaults[k];
    }
  }

  /** On the unique fields, satisfying a lookup and having it as key are the same thing. */
  lemma LookupIsKey(w: World, row: Row, lookup: Row)
    requires lookup.Keys == w.schema.unique
    ensures Satisfies(row, lookup) <==> w.Key()(row) == lookup
  {
    if Satisfies(row, lookup) {
      assert w.Key()(row) == lookup;
    }
  }

  // ---- Invariant -------------------------------------------------------------------------------

  /** What stage `stage` of call `c` says about the table. */
  ghost predicate Fits(w: World, rows: map<Pk, Row>, creator: map<Pk, CallId>, c: CallId, stage: Stage)
    requires c in w.calls
  {
    var call := w.calls[c];
    match stage
    case Begin => true
    case Missing => true
    case InTransaction => !Conflict(call)
    case Inserted(_) => !Conflict(call)
    case Refused => !Conflict(call) && (Found(rows, call.lookup) != {} || Rejected(w, rows, NewRow(w, call)))
    case RolledBack => !Conflict(call) && (Found(rows, call.lookup) != {} || Rejected(w, rows, NewRow(w, call)))
    case Over(Returned(pk, created)) =>
      && pk in Found(rows, call.lookup) && (created <==> pk in creator && creator[pk] == c)
      && (created ==> !Conflict(call) && rows[pk] == NewRow(w, call))
    case Over(ParamsError) => Conflict(call)
    case Over(IntegrityError) => Rejected(w, rows, NewRow(w, call))
    case Over(MultipleObjects) => false
  }

  /** The unique constraint, over committed and uncommitted rows together. */
  ghost predicate Unique(key: Row -> Row, rows: map<Pk, Row>, pending: map<CallId, (Pk, Row)>, next: Pk) {
    && (forall p <- rows :: p < next)
    && (forall c <- pending :: pending[c].0 < next && pending[c].0 !in rows)
    && (forall c, d :: c in pending && d in pending && pending[c].0 == pending[d].0 ==> c == d)
    && (forall p, q :: p in rows && q in rows && key(rows[p]) == key(rows[q]) ==> p == q)
    && (forall c, d :: c in pending && d in pending && key(pending[c].1) == key(pending[d].1) ==> c == d)
    && (forall c <- pending :: key(pending[c].1) !in Keys(key, rows))
  }

  /** Uncommitted rows belong to the calls that inserted them. */
  ghost predicate Owned(w: World, pending: map<CallId, (Pk, Row)>, stages: map<CallId, Stage>) {
    && (forall c <- pending :: c in w.calls && c in stages && pending[c].1 == NewRow(w, w.calls[c])
                               && stages[c] == Inserted(pending[c].0))
    && (forall c <- stages :: stages[c].Inserted? ==> c in pending)
  }

  /** Recorded creators are calls that report it. */
  ghost predicate Credited(w: World, rows: map<Pk, Row>, creator: map<Pk, CallId>, stages: map<CallId, Stage>) {
    forall p <- creator :: p in rows && creator[p] in w.calls && creator[p] in stages
                           && stages[creator[p]] == Over(Returned(p, true))
  }

  ghost predicate AllFit(w: World, rows: map<Pk, Row>, creator: map<Pk, CallId>, stages: map<CallId, Stage>) {
    stages.Keys == w.calls.Keys && forall c <- w.calls :: Fits(w, rows, creator, c, stages[c])
  }

  ghost predicate Inv(w: World, s: Sys) {
    && w.Valid() && Unique(w.Key(), s.rows, s.pending, s.next) && Owned(w, s.pending, s.stages)
    && Credited(w, s.rows, s.creator, s.stages) && AllFit(w, s.rows, s.creator, s.stages)
  }

  lemma FoundIsUnique(w: World, s: Sys, lookup: Row)
    requires Unique(w.Key(), s.rows, s.pending, s.next) && lookup.Keys == w.schema.unique
    ensures |Found(s.rows, lookup)| <= 1
  {
    var found := Found(s.rows, lookup);
    if found != {} {
      var p :| p in found;
      LookupIsKey(w, s.rows[p], lookup);
      forall q <- found ensures q == p {
        LookupIsKey(w, s.rows[q], lookup);
      }
      assert found == {p};
    }
  }

  lemma AnsweredFacts(w: World, s: Sys, lookup: Row, otherwise: Stage)
    requires Unique(w.Key(), s.rows, s.pending, s.next) && lookup.Keys == w.schema.unique
    ensures var a := Answered(Found(s.rows, lookup), otherwise);
            if Found(s.rows, lookup) == {} then a == otherwise
            else a.Over? && a.answer.Returned? && !a.answer.created && a.answer.pk in Found(s.rows, lookup)
  {
    FoundIsUnique(w, s, lookup);
  }

  /** Rows are only added, and credit is given for added rows only. */
  ghost predicate Extends(rows: map<Pk, Row>, creator: map<Pk, CallId>,
                          rows': map<Pk, Row>, creator': map<Pk, CallId>)
  {
    forall p <- rows :: p in rows' && rows'[p] == rows[p]
                        && (p in creator' <==> p in creator) && (p in creator ==> creator'[p] == creator[p])
  }

  lemma FitsGrows(w: World, rows: map<Pk, Row>, creator: map<Pk, CallId>,
                  rows': map<Pk, Row>, creator': map<Pk, CallId>, c: CallId, stage: Stage)
    requires c in w.calls && Extends(rows, creator, rows', creator') && Fits(w, rows, creator, c, stage)
    ensures Fits(w, rows', creator', c, stage)
  {
    assert Found(rows, w.calls[c].lookup) <= Found(rows', w.calls[c].lookup);
    if Rejected(w, rows, NewRow(w, w.calls[c])) {
      RejectedStays(w, rows, creator, rows', creator', NewRow(w, w.calls[c]));
    }
  }

  lemma RejectedStays(w: World, rows: map<Pk, Row>, creator: map<Pk, CallId>,
                      rows': map<Pk, Row>, creator': map<Pk, CallId>, row: Row)
    requires Extends(rows, creator, rows', creator') && Rejected(w, rows, row)
    ensures Rejected(w, rows', row)
  {
    if !w.schema.rejects(row) {
      var p :| p in rows && Clash(w, rows[p], row);
      assert p in rows' && Clash(w, rows'[p], row);
    }
  }

  /** One call moves on, rows are added: the other calls still fit. */
  lemma AllFitGrows(w: World, rows: map<Pk, Row>, creator: map<Pk, CallId>, stages: map<CallId, Stage>,
                    rows': map<Pk, Row>, creator': map<Pk, CallId>, c: CallId, stage: Stage)
    requires AllFit(w, rows, creator, stages) && Extends(rows, creator, rows', creator')
    requires c in w.calls && Fits(w, rows', creator', c, stage)
    ensures AllFit(w, rows', creator', stages[c := stage])
  {
    forall d <- w.calls | d != c ensures Fits(w, rows', creator', d, stages[d]) {
      FitsGrows(w, rows, creator, rows', creator', d, stages[d]);
    }
  }

  /** A call moves to a stage that touches no rows. */
  lemma StageKeepsInv(w: World, s: Sys, c: CallId, stage: Stage)
    requires Inv(w, s) && c in w.calls && !s.stages[c].Inserted? && !s.stages[c].Over? && !stage.Inserted?
    requires Fits(w, s.rows, s.creator, c, stage)
    ensures Inv(w, s.(stages := s.stages[c := stage]))
  {
    AllFitGrows(w, s.rows, s.creator, s.stages, s.rows, s.creator, c, stage);
    assert Owned(w, s.pending, s.stages[c := stage]);
    assert Credited(w, s.rows, s.creator, s.stages[c := stage]);
  }

  lemma NotCredited(w: World, s: Sys, c: CallId)
    requires Inv(w, s) && c in w.calls && !s.stages[c].Over?
    ensures forall p <- s.creator :: s.creator[p] != c
  {}

  lemma GetKeepsInv(w: World, s: Sys, step: Step)
    requires Inv(w, s) && Enabled(w, s, step) && (step.Get? || step.GetAgain?)
    ensures Inv(w, Do(w, s, step))
  {
    var c := step.c;
    var found, otherwise := Found(s.rows, w.calls[c].lookup), if step.Get? then Missing else Over(IntegrityError);
    AnsweredFacts(w, s, w.calls[c].lookup, otherwise);
    NotCredited(w, s, c);
    assert Fits(w, s.rows, s.creator, c, s.stages[c]);
    StageKeepsInv(w, s, c, Answered(found, otherwise));
  }

  lemma EnterKeepsInv(w: World, s: Sys, c: CallId)
    requires Inv(w, s) && Enabled(w, s, Enter(c))
    ensures Inv(w, Do(w, s, Enter(c)))
  {
    StageKeepsInv(w, s, c, if Conflict(w.calls[c]) then Over(ParamsError) else InTransaction);
  }

  /** A new committed row may carry any key that no other row has. */
  lemma UniqueGrows(key: Row -> Row, rows: map<Pk, Row>, pending: map<CallId, (Pk, Row)>, next: Pk, row: Row)
    requires Unique(key, rows, pending, next) && key(row) !in Keys(key, rows)
    requires forall c <- pending :: key(pending[c].1) != key(row)
    ensures Unique(key, rows[next := row], pending, next + 1)
  {
    assert forall p <- rows :: key(rows[p]) in Keys(key, rows);
    assert forall k <- Keys(key, rows[next := row]) :: k in Keys(key, rows) || k == key(row);
  }

  lemma UniqueWaits(key: Row -> Row, rows: map<Pk, Row>, pending: map<CallId, (Pk, Row)>, next: Pk, c: CallId, row: Row)
    requires Unique(key, rows, pending, next) && key(row) !in Keys(key, rows) && c !in pending
    requires forall d <- pending :: key(pending[d].1) != key(row)
    ensures Unique(key, rows, pending[c := (next, row)], next + 1)
  {}

  /** Committing a pending row. */
  lemma UniqueMoves(key: Row -> Row, rows: map<Pk, Row>, pending: map<CallId, (Pk, Row)>, next: Pk, c: CallId)
    requires Unique(key, rows, pending, next) && c in pending
    ensures Unique(key, rows[pending[c].0 := pending[c].1], pending - {c}, next)
  {
    var row := pending[c].1;
    assert forall p <- rows :: key(rows[p]) in Keys(key, rows);
    assert forall k <- Keys(key, rows[pending[c].0 := row]) :: k in Keys(key, rows) || k == key(row);
  }

  lemma TakenMeansFound(w: World, s: Sys, call: Call)
    requires call.lookup.Keys == w.schema.unique && !Conflict(call) && Taken(w, s, NewRow(w, call))
    ensures Found(s.rows, call.lookup) != {}
  {
    CreatedRowSatisfiesLookup(w, call);
    LookupIsKey(w, NewRow(w, call), call.lookup);
    var p :| p in s.rows && w.Key()(s.rows[p]) == call.lookup;
    LookupIsKey(w, s.rows[p], call.lookup);
    assert p in Found(s.rows, call.lookup);
  }

  lemma PendingRows(w: World, s: Sys, c: CallId, row: Row)
    requires Inv(w, s) && c in w.calls && s.stages[c] == InTransaction && row == NewRow(w, w.calls[c])
    requires !Taken(w, s, row) && !Awaited(w, s, row)
    ensures Unique(w.Key(), s.rows, s.pending[c := (s.next, row)], s.next + 1)
    ensures Owned(w, s.pending[c := (s.next, row)], s.stages[c := Inserted(s.next)])
  {
    UniqueWaits(w.Key(), s.rows, s.pending, s.next, c, row);
    OwnedGrows(w, s.pending, s.stages, c, s.next, row);
  }

  lemma PendingStages(w: World, s: Sys, c: CallId)
    requires Inv(w, s) && c in w.calls && s.stages[c] == InTransaction
    ensures AllFit(w, s.rows, s.creator, s.stages[c := Inserted(s.next)])
  {
    assert Fits(w, s.rows, s.creator, c, s.stages[c]);
    AllFitGrows(w, s.rows, s.creator, s.stages, s.rows, s.creator, c, Inserted(s.next));
  }

  lemma PendingKeepsInv(w: World, s: Sys, c: CallId, row: Row)
    requires Inv(w, s) && c in w.calls && s.stages[c] == InTransaction && row == NewRow(w, w.calls[c])
    requires !Taken(w, s, row) && !Awaited(w, s, row)
    ensures Inv(w, s.(pending := s.pending[c := (s.next, row)], next := s.next + 1,
                      stages := s.stages[c := Inserted(s.next)]))
  {
    PendingRows(w, s, c, row);
    PendingStages(w, s, c);
    NotCredited(w, s, c);
    CreditedKept(w, s.rows, s.creator, s.stages, c, Inserted(s.next));
  }

  lemma OwnedGrows(w: World, pending: map<CallId, (Pk, Row)>, stages: map<CallId, Stage>, c: CallId, pk: Pk, row: Row)
    requires Owned(w, pending, stages) && c in w.calls && c !in pending && row == NewRow(w, w.calls[c])
    ensures Owned(w, pending[c := (pk, row)], stages[c := Inserted(pk)])
  {}

  lemma OwnedShrinks(w: World, pending: map<CallId, (Pk, Row)>, stages: map<CallId, Stage>, c: CallId, answer: Answer)
    requires Owned(w, pending, stages)
    ensures Owned(w, pending - {c}, stages[c := Over(answer)])
  {}

  lemma CreditedKept(w: World, rows: map<Pk, Row>, creator: map<Pk, CallId>, stages: map<CallId, Stage>,
                     c: CallId, stage: Stage)
    requires Credited(w, rows, creator, stages) && forall p <- creator :: creator[p] != c
    ensures Credited(w, rows, creator, stages[c := stage])
  {}

  lemma CreditedGrows(w: World, rows: map<Pk, Row>, creator: map<Pk, CallId>, stages: map<CallId, Stage>,
                      c: CallId, pk: Pk, row: Row)
    requires Credited(w, rows, creator, stages) && (forall p <- creator :: creator[p] != c) && c in w.calls
    ensures Credited(w, rows[pk := row], creator[pk := c], stages[c := Over(Returned(pk, true))])
  {}

  lemma InsertKeepsInv(w: World, s: Sys, c: CallId)
    requires Inv(w, s) && Enabled(w, s, Insert(c))
    ensures Inv(w, Do(w, s, Insert(c)))
  {
    var row := NewRow(w, w.calls[c]);
    assert Fits(w, s.rows, s.creator, c, s.stages[c]);
    if Taken(w, s, row) || Rejected(w, s.rows, row) {
      if Taken(w, s, row) {
        TakenMeansFound(w, s, w.calls[c]);
      }
      StageKeepsInv(w, s, c, Refused);
    } else {
      PendingKeepsInv(w, s, c, row);
    }
  }

  lemma CommitRows(w: World, s: Sys, c: CallId)
    requires Inv(w, s) && Enabled(w, s, Leave(c)) && s.stages[c].Inserted?
    ensures var s' := Do(w, s, Leave(c));
            Unique(w.Key(), s'.rows, s'.pending, s'.next) && Owned(w, s'.pending, s'.stages)
  {
    UniqueMoves(w.Key(), s.rows, s.pending, s.next, c);
    OwnedShrinks(w, s.pending, s.stages, c, Returned(s.pending[c].0, true));
  }

  lemma CommitCredit(w: World, s: Sys, c: CallId)
    requires Inv(w, s) && Enabled(w, s, Leave(c)) && s.stages[c].Inserted?
    ensures var s' := Do(w, s, Leave(c)); Credited(w, s'.rows, s'.creator, s'.stages)
  {
    NotCredited(w, s, c);
    CreditedGrows(w, s.rows, s.creator, s.stages, c, s.pending[c].0, s.pending[c].1);
  }

  lemma InsertedFacts(w: World, s: Sys, c: CallId)
    requires Inv(w, s) && c in w.calls && s.stages[c].Inserted?
    ensures c in s.pending && s.pending[c].1 == NewRow(w, w.calls[c]) && !Conflict(w.calls[c])
    ensures s.pending[c].0 !in s.rows
  {
    assert Fits(w, s.rows, s.creator, c, s.stages[c]);
  }

  lemma CommitExtends(rows: map<Pk, Row>, creator: map<Pk, CallId>, pk: Pk, row: Row, c: CallId)
    requires pk !in rows
    ensures Extends(rows, creator, rows[pk := row], creator[pk := c])
  {}

  lemma CommitStages(w: World, s: Sys, c: CallId)
    requires Inv(w, s) && Enabled(w, s, Leave(c)) && s.stages[c].Inserted?
    ensures var s' := Do(w, s, Leave(c)); AllFit(w, s'.rows, s'.creator, s'.stages)
  {
    var (pk, row) := s.pending[c];
    InsertedFacts(w, s, c);
    CommitFits(w, s.rows[pk := row], s.creator[pk := c], c, pk);
    CommitExtends(s.rows, s.creator, pk, row, c);
    AllFitGrows(w, s.rows, s.creator, s.stages, s.rows[pk := row], s.creator[pk := c], c, Over(Returned(pk, true)));
  }

  lemma CommitKeepsInv(w: World, s: Sys, c: CallId)
    requires Inv(w, s) && Enabled(w, s, Leave(c)) && s.stages[c].Inserted?
    ensures Inv(w, Do(w, s, Leave(c)))
  {
    CommitRows(w, s, c);
    CommitCredit(w, s, c);
    CommitStages(w, s, c);
  }

  lemma CommitFits(w: World, rows: map<Pk, Row>, creator: map<Pk, CallId>, c: CallId, pk: Pk)
    requires c in w.calls && !Conflict(w.calls[c]) && pk in rows && rows[pk] == NewRow(w, w.calls[c])
    requires pk in creator && creator[pk] == c
    ensures Fits(w, rows, creator, c, Over(Returned(pk, true)))
  {
    CreatedRowSatisfiesLookup(w, w.calls[c]);
  }

  lemma LeaveKeepsInv(w: World, s: Sys, c: CallId)
    requires Inv(w, s) && Enabled(w, s, Leave(c))
    ensures Inv(w, Do(w, s, Leave(c)))
  {
    if s.stages[c].Inserted? {
      CommitKeepsInv(w, s, c);
    } else {
      assert Fits(w, s.rows, s.creator, c, s.stages[c]);
      StageKeepsInv(w, s, c, RolledBack);
    }
  }

  lemma ForeignKeepsInv(w: World, s: Sys, row: Row)
    requires Inv(w, s) && Enabled(w, s, Foreign(row))
    ensures Inv(w, Do(w, s, Foreign(row)))
  {
    var rows := s.rows[s.next := row];
    UniqueGrows(w.Key(), s.rows, s.pending, s.next, row);
    assert Credited(w, rows, s.creator, s.stages);
    assert Extends(s.rows, s.creator, rows, s.creator);
    forall d <- w.calls ensures Fits(w, rows, s.creator, d, s.stages[d]) {
      FitsGrows(w, s.rows, s.creator, rows, s.creator, d, s.stages[d]);
    }
  }

  lemma OneStepKeepsInv(w: World, s: Sys, step: Step)
    requires Inv(w, s) && Enabled(w, s, step)
    ensures Inv(w, Do(w, s, step))
  {
    match step
    case Get(_) => GetKeepsInv(w, s, step);
    case GetAgain(_) => GetKeepsInv(w, s, step);
    case Enter(c) => EnterKeepsInv(w, s, c);
    case Insert(c) => InsertKeepsInv(w, s, c);
    case Leave(c) => LeaveKeepsInv(w, s, c);
    case Foreign(row) => ForeignKeepsInv(w, s, row);
  }

  lemma {:induction false} RunKeepsInv(w: World, s: Sys, steps: seq<Step>)
    requires Inv(w, s) && Possible(w, s, steps)
    ensures Inv(w, After(w, s, steps))
    decreases |steps|
  {
    if steps != [] {
      OneStepKeepsInv(w, s, steps[0]);
      RunKeepsInv(w, Do(w, s, steps[0]), steps[1..]);
    }
  }

  lemma InitialInv(w: World, s: Sys)
    requires w.Valid() && Initial(w, s)
    ensures Inv(w, s)
  {}

  // ---- Main results ----------------------------------------------------------------------------

  ghost predicate HasAnswer(s: Sys, c: CallId, a: Answer) {
    c in s.stages && s.stages[c] == Over(a)
  }

  /** In every interleaving: calls with the same lookup return the same row, which satisfies the
      lookup, and at most one of them reports having created it. */
  lemma SameRowCreatedOnce(w: World, s0: Sys, steps: seq<Step>, c: CallId, d: CallId, a: Answer, b: Answer)
    requires w.Valid() && Initial(w, s0) && Possible(w, s0, steps)
    requires c in w.calls && d in w.calls && w.calls[c].lookup == w.calls[d].lookup && c != d
    requires a.Returned? && b.Returned?
    requires HasAnswer(After(w, s0, steps), c, a) && HasAnswer(After(w, s0, steps), d, b)
    ensures a.pk == b.pk && !(a.created && b.created)
    ensures a.pk in After(w, s0, steps).rows && Satisfies(After(w, s0, steps).rows[a.pk], w.calls[c].lookup)
  {
    InitialInv(w, s0);
    RunKeepsInv(w, s0, steps);
    var s := After(w, s0, steps);
    assert Fits(w, s.rows, s.creator, c, s.stages[c]) && Fits(w, s.rows, s.creator, d, s.stages[d]);
    assert a.created && b.created ==> s.creator[a.pk] == c && s.creator[b.pk] == d;
    LookupIsKey(w, s.rows[a.pk], w.calls[c].lookup);
    LookupIsKey(w, s.rows[b.pk], w.calls[c].lookup);
  }

  /** How a call can end: ParamsError only when its defaults contradict its lookup, IntegrityError
      only when its row breaks a constraint other than the unique one, and never by finding several
      rows. A call free of both faults therefore never raises. */
  lemma ErrorsAreTheCallersOwn(w: World, s0: Sys, steps: seq<Step>, c: CallId, a: Answer)
    requires w.Valid() && Initial(w, s0) && Possible(w, s0, steps)
    requires c in w.calls && HasAnswer(After(w, s0, steps), c, a)
    ensures match a
            case ParamsError => Conflict(w.calls[c])
            case IntegrityError => Rejected(w, After(w, s0, steps).rows, NewRow(w, w.calls[c]))
            case MultipleObjects => false
            case Returned(_, created) => created ==> !Conflict(w.calls[c])
  {
    InitialInv(w, s0);
    RunKeepsInv(w, s0, steps);
    var s := After(w, s0, steps);
    assert Fits(w, s.rows, s.creator, c, s.stages[c]);
  }

  /** Whenever a call has answered that it created a row, that row holds every value of its defaults and of
      its lookup, the model's own value in every other field the model fills in, and no further field. */
  lemma CreatedRowHolds(w: World, s0: Sys, steps: seq<Step>, c: CallId, pk: Pk)
    requires w.Valid() && Initial(w, s0) && Possible(w, s0, steps)
    requires c in w.calls && HasAnswer(After(w, s0, steps), c, Returned(pk, true))
    ensures pk in After(w, s0, steps).rows
    ensures var row, call, base := After(w, s0, steps).rows[pk], w.calls[c], w.schema.base;
            && (forall k <- call.defaults :: k in row && row[k] == call.defaults[k])
            && (forall k <- call.lookup :: k in row && row[k] == call.lookup[k])
            && (forall k <- base :: k in row)
            && (forall k <- base :: k !in call.defaults && k !in call.lookup ==> row[k] == base[k])
            && (forall k <- row :: k in call.defaults || k in call.lookup || k in base)
  {
    InitialInv(w, s0);
    RunKeepsInv(w, s0, steps);
    var s := After(w, s0, steps);
    assert Fits(w, s.rows, s.creator, c, s.stages[c]);
    var call := w.calls[c];
    assert s.rows[pk] == NewRow(w, call);
    forall k <- call.lookup ensures k in s.rows[pk] && s.rows[pk][k] == call.lookup[k] {
      if k in call.defaults {
        assert k in call.defaults.Keys && !Conflict(call);
      }
    }
  }

  /** The call has not looked yet, or has answered with the row at `pk` that it found. */
  ghost predicate FindsIt(w: World, s: Sys, c: CallId, pk: Pk)
    requires c in w.calls
  {
    && pk in Found(s.rows, w.calls[c].lookup)
    && c in s.stages && s.stages[c] in {Begin, Over(Returned(pk, false))}
  }

  /** Rows get keys that no row has. */
  ghost predicate NewKeys(s: Sys) {
    s.next !in s.rows && forall c <- s.pending :: s.pending[c].0 !in s.rows
  }

  lemma KeysAreNew(w: World, s: Sys)
    requires Inv(w, s)
    ensures NewKeys(s)
  {}

  lemma StepKeepsRow(w: World, s: Sys, step: Step, pk: Pk)
    requires NewKeys(s) && Enabled(w, s, step) && pk in s.rows
    ensures pk in Do(w, s, step).rows && Do(w, s, step).rows[pk] == s.rows[pk]
  {
    match step
    case Leave(c) =>
    case Foreign(row) =>
    case _ =>
  }

  lemma StepKeepsStage(w: World, s: Sys, step: Step, c: CallId)
    requires Enabled(w, s, step) && step != Get(c) && c in s.stages && (s.stages[c].Begin? || s.stages[c].Over?)
    ensures c in Do(w, s, step).stages && Do(w, s, step).stages[c] == s.stages[c]
  {
    match step
    case Leave(_) =>
    case _ =>
  }

  lemma GetFindsIt(w: World, s: Sys, c: CallId, pk: Pk)
    requires Unique(w.Key(), s.rows, s.pending, s.next) && Enabled(w, s, Get(c))
    requires w.calls[c].lookup.Keys == w.schema.unique && pk in Found(s.rows, w.calls[c].lookup)
    ensures Do(w, s, Get(c)).stages[c] == Over(Returned(pk, false))
  {
    FoundIsUnique(w, s, w.calls[c].lookup);
    var found := Found(s.rows, w.calls[c].lookup);
    assert |found - {pk}| == |found| - 1 == 0;
    assert found == {pk};
  }

  lemma StepFindsIt(w: World, s: Sys, step: Step, c: CallId, pk: Pk)
    requires Inv(w, s) && c in w.calls && FindsIt(w, s, c, pk) && Enabled(w, s, step)
    ensures FindsIt(w, Do(w, s, step), c, pk)
  {
    KeysAreNew(w, s);
    StepKeepsRow(w, s, step, pk);
    if step == Get(c) {
      GetFindsIt(w, s, c, pk);
    } else {
      StepKeepsStage(w, s, step, c);
    }
  }

  lemma {:induction false} RunFindsIt(w: World, s: Sys, steps: seq<Step>, c: CallId, pk: Pk)
    requires Inv(w, s) && c in w.calls && FindsIt(w, s, c, pk) && Possible(w, s, steps)
    ensures FindsIt(w, After(w, s, steps), c, pk)
    decreases |steps|
  {
    if steps != [] {
      StepFindsIt(w, s, steps[0], c, pk);
      OneStepKeepsInv(w, s, steps[0]);
      RunFindsIt(w, Do(w, s, steps[0]), steps[1..], c, pk);
    }
  }

  /** A row that is there from the start is what every call with its lookup answers, as found and not
      created, even where the defaults contradict the lookup; and it stays as it is. */
  lemma PresentRowIsReturned(w: World, s0: Sys, steps: seq<Step>, c: CallId, pk: Pk, a: Answer)
    requires w.Valid() && Initial(w, s0) && Possible(w, s0, steps)
    requires c in w.calls && pk in Found(s0.rows, w.calls[c].lookup)
    requires HasAnswer(After(w, s0, steps), c, a)
    ensures a == Returned(pk, false)
    ensures pk in After(w, s0, steps).rows && After(w, s0, steps).rows[pk] == s0.rows[pk]
  {
    InitialInv(w, s0);
    RunFindsIt(w, s0, steps, c, pk);
    RowsStay(w, s0, steps, pk);
  }

  /** No call and no other writer changes a row that is there. */
  lemma {:induction false} RowsStay(w: World, s: Sys, steps: seq<Step>, pk: Pk)
    requires Inv(w, s) && Possible(w, s, steps) && pk in s.rows
    ensures pk in After(w, s, steps).rows && After(w, s, steps).rows[pk] == s.rows[pk]
    decreases |steps|
  {
    if steps != [] {
      KeysAreNew(w, s);
      StepKeepsRow(w, s, steps[0], pk);
      OneStepKeepsInv(w, s, steps[0]);
      RowsStay(w, Do(w, s, steps[0]), steps[1..], pk);
    }
  }

  /** Two rows agree on all of these fields. */
  predicate Agree(u: set<string>, a: Row, b: Row) {
    forall k <- u :: k in a && k in b && a[k] == b[k]
  }

  /** No two rows, committed or not, break one of the further constraints, and no row breaks its own. */
  ghost predicate Apart(w: World, rows: map<Pk, Row>, pending: map<CallId, (Pk, Row)>) {
    && (forall p <- rows, q <- rows :: p != q ==> !Clash(w, rows[p], rows[q]))
    && (forall p <- rows, c <- pending :: !Clash(w, rows[p], pending[c].1))
    && (forall c <- pending, d <- pending :: c != d ==> !Clash(w, pending[c].1, pending[d].1))
    && (forall p <- rows :: !w.schema.rejects(rows[p]))
    && (forall c <- pending :: !w.schema.rejects(pending[c].1))
  }

  lemma ClashBothWays(w: World, a: Row, b: Row)
    ensures Clash(w, a, b) <==> Clash(w, b, a)
    ensures Clash(w, a, b) <==> exists u <- w.schema.others :: Agree(u, a, b)
  {
    if u :| u in w.schema.others && forall k <- u :: k in a && k in b && a[k] == b[k] {
      assert Agree(u, a, b) && forall k <- u :: k in b && k in a && b[k] == a[k];
    }
    if u :| u in w.schema.others && forall k <- u :: k in b && k in a && b[k] == a[k] {
      assert Agree(u, a, b) && forall k <- u :: k in a && k in b && a[k] == b[k];
    }
    if u :| u in w.schema.others && Agree(u, a, b) {
      assert forall k <- u :: k in a && k in b && a[k] == b[k];
    }
  }

  /** A row that is neither rejected nor waits for another keeps apart from all others. */
  lemma NewIsApart(w: World, s: Sys, row: Row)
    requires !Rejected(w, s.rows, row) && !Awaited(w, s, row)
    ensures !w.schema.rejects(row)
    ensures forall p <- s.rows :: !Clash(w, s.rows[p], row) && !Clash(w, row, s.rows[p])
    ensures forall c <- s.pending :: !Clash(w, s.pending[c].1, row) && !Clash(w, row, s.pending[c].1)
  {
    forall p <- s.rows ensures !Clash(w, row, s.rows[p]) {
      ClashBothWays(w, s.rows[p], row);
    }
    forall c <- s.pending ensures !Clash(w, row, s.pending[c].1) {
      ClashBothWays(w, s.pending[c].1, row);
    }
  }

  lemma WaitingApart(w: World, s: Sys, c: CallId, row: Row)
    requires Apart(w, s.rows, s.pending) && !Rejected(w, s.rows, row) && !Awaited(w, s, row)
    ensures Apart(w, s.rows, s.pending[c := (s.next, row)])
  {
    NewIsApart(w, s, row);
  }

  lemma CommittedApart(w: World, s: Sys, c: CallId)
    requires Apart(w, s.rows, s.pending) && c in s.pending
    ensures Apart(w, s.rows[s.pending[c].0 := s.pending[c].1], s.pending - {c})
  {
    var row := s.pending[c].1;
    forall p <- s.rows ensures !Clash(w, row, s.rows[p]) {
      ClashBothWays(w, s.rows[p], row);
    }
  }

  lemma ForeignApart(w: World, s: Sys, row: Row)
    requires Apart(w, s.rows, s.pending) && !Rejected(w, s.rows, row) && !Awaited(w, s, row)
    ensures Apart(w, s.rows[s.next := row], s.pending)
  {
    NewIsApart(w, s, row);
  }

  lemma StepKeepsApart(w: World, s: Sys, step: Step)
    requires Apart(w, s.rows, s.pending) && Enabled(w, s, step)
    ensures Apart(w, Do(w, s, step).rows, Do(w, s, step).pending)
  {
    match step
    case Insert(c) =>
      var row := NewRow(w, w.calls[c]);
      if !Taken(w, s, row) && !Rejected(w, s.rows, row) {
        WaitingApart(w, s, c, row);
      }
    case Leave(c) =>
      if s.stages[c] != Refused {
        CommittedApart(w, s, c);
      }
    case Foreign(row) => ForeignApart(w, s, row);
    case _ =>
  }

  lemma {:induction false} RunKeepsApart(w: World, s: Sys, steps: seq<Step>)
    requires Apart(w, s.rows, s.pending) && Possible(w, s, steps)
    ensures Apart(w, After(w, s, steps).rows, After(w, s, steps).pending)
    decreases |steps|
  {
    if steps != [] {
      StepKeepsApart(w, s, steps[0]);
      RunKeepsApart(w, Do(w, s, steps[0]), steps[1..]);
    }
  }

  lemma AgreeIsKey(w: World, a: Row, b: Row)
    ensures Agree(w.schema.unique, a, b) ==> w.Key()(a) == w.Key()(b)
  {
    if Agree(w.schema.unique, a, b) {
      assert w.Key()(a) == w.Key()(b);
    }
  }

  /** In every interleaving the table obeys its constraints: no two rows agree on the unique fields, nor
      on the fields of any further unique constraint, and no row breaks a constraint of its own. */
  lemma ConstraintsHold(w: World, s0: Sys, steps: seq<Step>, p: Pk, q: Pk)
    requires w.Valid() && Initial(w, s0) && Apart(w, s0.rows, map[]) && Possible(w, s0, steps)
    requires p in After(w, s0, steps).rows && q in After(w, s0, steps).rows && p != q
    ensures var a, b := After(w, s0, steps).rows[p], After(w, s0, steps).rows[q];
            && !Agree(w.schema.unique, a, b) && (forall u <- w.schema.others :: !Agree(u, a, b))
            && !w.schema.rejects(a)
  {
    InitialInv(w, s0);
    RunKeepsInv(w, s0, steps);
    RunKeepsApart(w, s0, steps);
    var s := After(w, s0, steps);
    ClashBothWays(w, s.rows[p], s.rows[q]);
    AgreeIsKey(w, s.rows[p], s.rows[q]);
  }

  /** No foreign writer inserts a row that satisfies the lookup. */
  ghost predicate NoForeign(steps: seq<Step>, lookup: Row) {
    forall step <- steps :: step.Foreign? ==> !Satisfies(step.row, lookup)
  }

  /** Every committed row that satisfies the lookup has a creator among the calls. */
  ghost predicate AllCreated(s: Sys, lookup: Row) {
    forall p <- Found(s.rows, lookup) :: p in s.creator
  }

  lemma {:induction false} CreatedByCalls(w: World, s: Sys, steps: seq<Step>, lookup: Row)
    requires Possible(w, s, steps) && NoForeign(steps, lookup) && AllCreated(s, lookup)
    ensures AllCreated(After(w, s, steps), lookup)
    decreases |steps|
  {
    if steps != [] {
      assert steps[0] in steps && forall x <- steps[1..] :: x in steps;
      CreatedByCalls(w, Do(w, s, steps[0]), steps[1..], lookup);
    }
  }

  /** When the row was absent and only these calls insert it, then as soon as some call has returned
      it, exactly one call is the one that created it. */
  lemma ExactlyOneCreates(w: World, s0: Sys, steps: seq<Step>, c: CallId, a: Answer)
    returns (creator: CallId)
    requires w.Valid() && Initial(w, s0) && Possible(w, s0, steps)
    requires c in w.calls && Found(s0.rows, w.calls[c].lookup) == {} && NoForeign(steps, w.calls[c].lookup)
    requires a.Returned? && HasAnswer(After(w, s0, steps), c, a)
    ensures creator in w.calls && w.calls[creator].lookup == w.calls[c].lookup
    ensures forall d <- w.calls :: d == creator <==> HasAnswer(After(w, s0, steps), d, Returned(a.pk, true))
  {
    InitialInv(w, s0);
    RunKeepsInv(w, s0, steps);
    CreatedByCalls(w, s0, steps, w.calls[c].lookup);
    creator := OneCreator(w, After(w, s0, steps), c, a);
  }

  lemma OneCreator(w: World, s: Sys, c: CallId, a: Answer) returns (creator: CallId)
    requires Inv(w, s) && c in w.calls && AllCreated(s, w.calls[c].lookup)
    requires a.Returned? && HasAnswer(s, c, a)
    ensures creator in w.calls && w.calls[creator].lookup == w.calls[c].lookup
    ensures forall d <- w.calls :: d == creator <==> HasAnswer(s, d, Returned(a.pk, true))
  {
    ReturnedRow(w, s, c, a);
    creator := CreatorOf(w, s, a.pk);
    SameLookup(s.rows[a.pk], w.calls[creator].lookup, w.calls[c].lookup);
    forall d <- w.calls | HasAnswer(s, d, Returned(a.pk, true)) ensures d == creator {
      CreditOf(w, s, d, a.pk);
    }
  }

  lemma ReturnedRow(w: World, s: Sys, c: CallId, a: Answer)
    requires Inv(w, s) && c in w.calls && a.Returned? && HasAnswer(s, c, a)
    ensures a.pk in Found(s.rows, w.calls[c].lookup)
  {
    assert Fits(w, s.rows, s.creator, c, s.stages[c]);
  }

  lemma CreditOf(w: World, s: Sys, c: CallId, pk: Pk)
    requires Inv(w, s) && c in w.calls && HasAnswer(s, c, Returned(pk, true))
    ensures pk in s.creator && s.creator[pk] == c
  {
    assert Fits(w, s.rows, s.creator, c, s.stages[c]);
  }

  lemma CreatorOf(w: World, s: Sys, pk: Pk) returns (c: CallId)
    requires Inv(w, s) && pk in s.creator
    ensures pk in s.rows && c == s.creator[pk] && c in w.calls
    ensures HasAnswer(s, c, Returned(pk, true)) && Satisfies(s.rows[pk], w.calls[c].lookup)
  {
    c := s.creator[pk];
    assert Fits(w, s.rows, s.creator, c, s.stages[c]);
  }

  lemma SameLookup(row: Row, x: Row, y: Row)
    requires x.Keys == y.Keys && Satisfies(row, x) && Satisfies(row, y)
    ensures x == y
  {
    assert forall k <- x :: x[k] == row[k] == y[k];
  }

  /** The protocol never waits on itself: while a call is unfinished, some call can go on. */
  lemma NeverStuck(w: World, s: Sys, c: CallId) returns (step: Step)
    requires Inv(w, s) && c in w.calls && !s.stages[c].Over?
    ensures !step.Foreign? && Enabled(w, s, step)
  {
    assert Fits(w, s.rows, s.creator, c, s.stages[c]);
    match s.stages[c]
    case Begin => step := Get(c);
    case Missing => step := Enter(c);
    case InTransaction =>
      if Awaited(w, s, NewRow(w, w.calls[c])) {
        var d :| d in s.pending && (w.Key()(s.pending[d].1) == w.Key()(NewRow(w, w.calls[c]))
                                    || Clash(w, s.pending[d].1, NewRow(w, w.calls[c])));
        step := Leave(d);
      } else {
        step := Insert(c);
      }
    case Inserted(_) => step := Leave(c);
    case Refused => step := Leave(c);
    case RolledBack => step := GetAgain(c);
  }

  /** At most how many more steps a call takes. */
  function Remaining(stage: Stage): nat {
    match stage
    case Begin => 5
    case Missing => 4
    case InTransaction => 3
    case Refused => 2
    case Inserted(_) => 1
    case RolledBack => 1
    case Over(_) => 0
  }

  function StepsOf(steps: seq<Step>, c: CallId): nat {
    if steps == [] then 0
    else (if !steps[0].Foreign? && steps[0].c == c then 1 else 0) + StepsOf(steps[1..], c)
  }

  /** Every call is over after at most five steps of its own, however the others and the other writers
      get in between. */
  lemma {:induction false} FiveStepsEach(w: World, s: Sys, steps: seq<Step>, c: CallId)
    requires Possible(w, s, steps) && c in s.stages
    ensures c in After(w, s, steps).stages
    ensures StepsOf(steps, c) + Remaining(After(w, s, steps).stages[c]) <= Remaining(s.stages[c]) <= 5
    decreases |steps|
  {
    if steps != [] {
      StepUsesOne(w, s, steps[0], c);
      FiveStepsEach(w, Do(w, s, steps[0]), steps[1..], c);
    }
  }

  lemma StepUsesOne(w: World, s: Sys, step: Step, c: CallId)
    requires Enabled(w, s, step) && c in s.stages
    ensures c in Do(w, s, step).stages
    ensures Remaining(Do(w, s, step).stages[c]) + (if !step.Foreign? && step.c == c then 1 else 0)
            <= Remaining(s.stages[c])
  {}

  /** A run that can only be continued by other writers has finished all calls. */
  lemma StopsOnlyWhenOver(w: World, s0: Sys, steps: seq<Step>)
    requires w.Valid() && Initial(w, s0) && Possible(w, s0, steps)
    requires forall step: Step :: Enabled(w, After(w, s0, steps), step) ==> step.Foreign?
    ensures forall c <- w.calls :: c in After(w, s0, steps).stages && After(w, s0, steps).stages[c].Over?
  {
    InitialInv(w, s0);
    RunKeepsInv(w, s0, steps);
    forall c <- w.calls ensures After(w, s0, steps).stages[c].Over? {
      if !After(w, s0, steps).stages[c].Over? {
        var step := NeverStuck(w, After(w, s0, steps), c);
      }
    }
  }
}
