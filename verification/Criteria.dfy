// Criteria and the WHERE/HAVING split of tortoise/query_utils.py (`EmptyCriterion`, `QueryModifier`).
module Criteria {
  import opened Common
  import opened Kleene
  import opened Lookups
  import opened ModelGraph

  /** A leaf condition: on a column of a joined table, or on an annotation resolved at a table. */
  datatype Atom =
    | OnColumn(column: Column, lookup: Lookup)
    | OnAnnotation(annotation: string, table: Table, aggregate: bool, lookup: Lookup)
  {
    predicate IsAggregate() {
      OnAnnotation? && aggregate
    }
  }

  datatype Criterion =
    | Empty
    | Test(atom: Atom)
    | Both(left: Criterion, right: Criterion)
    | Either(left: Criterion, right: Criterion)
    | Negation(operand: Criterion)

  type Assignment = Atom -> Truth

  function Eval(c: Criterion, v: Assignment): Verdict {
    match c
    case Empty => Nothing
    case Test(a) => Just(v(a))
    case Both(l, r) => Combine(AND, Eval(l, v), Eval(r, v))
    case Either(l, r) => Combine(OR, Eval(l, v), Eval(r, v))
    case Negation(d) => Complement(Eval(d, v))
  }

  /** `left & right` on criteria: the empty criterion gives way on the left only. */
  function Ampersand(left: Criterion, right: Criterion): Criterion {
    if left.Empty? then right else Both(left, right)
  }

  function Bar(left: Criterion, right: Criterion): Criterion {
    if left.Empty? then right else Either(left, right)
  }

  /** `_and`: also drops an empty right operand. */
  function AndCriteria(left: Criterion, right: Criterion): Criterion {
    if !left.Empty? && right.Empty? then left else Ampersand(left, right)
  }

  function OrCriteria(left: Criterion, right: Criterion): Criterion {
    if !left.Empty? && right.Empty? then left else Bar(left, right)
  }

  /** Every non-empty criterion the compiler builds is free of `Empty` inside. */
  predicate Solid(c: Criterion) {
    match c
    case Empty => false
    case Test(_) => true
    case Both(l, r) => Solid(l) && Solid(r)
    case Either(l, r) => Solid(l) && Solid(r)
    case Negation(d) => Solid(d)
  }

  predicate AggregateFree(c: Criterion) {
    match c
    case Empty => true
    case Test(a) => !a.IsAggregate()
    case Both(l, r) => AggregateFree(l) && AggregateFree(r)
    case Either(l, r) => AggregateFree(l) && AggregateFree(r)
    case Negation(d) => AggregateFree(d)
  }

  datatype QueryModifier = QueryModifier(where: Criterion, joins: seq<Join>, having: Criterion) {

    function And(other: QueryModifier): QueryModifier {
      QueryModifier(AndCriteria(where, other.where), joins + other.joins, AndCriteria(having, other.having))
    }

    function AndCriterion(): Criterion {
      AndCriteria(where, having)
    }

    function Or(other: QueryModifier): QueryModifier {
      if !having.Empty? || !other.having.Empty? then
        QueryModifier(Empty, joins + other.joins, OrCriteria(AndCriterion(), other.AndCriterion()))
      else
        var w := if !where.Empty? && !other.where.Empty? then Bar(where, other.where)
                 else if !where.Empty? then where else other.where;
        QueryModifier(w, joins + other.joins, Empty)
    }

    function Invert(): QueryModifier {
      if !having.Empty? then QueryModifier(Empty, joins, Negation(Ampersand(where, having)))
      else if !where.Empty? then QueryModifier(Negation(where), joins, Empty)
      else QueryModifier(Empty, joins, Empty)
    }

    function Join(c: Connective, other: QueryModifier): QueryModifier {
      if c == AND then And(other) else Or(other)
    }

    /** What the database decides about one result row: WHERE and HAVING together. */
    function Meaning(v: Assignment): Verdict {
      Combine(AND, Eval(where, v), Eval(having, v))
    }

    /** No aggregate in WHERE, no absent condition buried in either clause. */
    predicate WellSplit() {
      && AggregateFree(where)
      && (where.Empty? || Solid(where))
      && (having.Empty? || Solid(having))
    }
  }

  const NoModifier := QueryModifier(Empty, [], Empty)

  lemma CombineLaws(a: Verdict, b: Verdict, c: Verdict)
    ensures Combine(AND, Combine(AND, a, b), c) == Combine(AND, a, Combine(AND, b, c))
    ensures Combine(AND, a, b) == Combine(AND, b, a)
    ensures Combine(OR, a, b) == Combine(OR, b, a)
  {}

  /** Joining two modifiers joins their meanings, wherever the OR has to move a WHERE part. */
  lemma JoinMeaning(c: Connective, m: QueryModifier, n: QueryModifier, v: Assignment)
    ensures m.Join(c, n).Meaning(v) == Combine(c, m.Meaning(v), n.Meaning(v))
  {
    if c == AND {
      var w, w', h, h' := Eval(m.where, v), Eval(n.where, v), Eval(m.having, v), Eval(n.having, v);
      assert Eval(AndCriteria(m.where, n.where), v) == Combine(AND, w, w');
      assert Eval(AndCriteria(m.having, n.having), v) == Combine(AND, h, h');
      CombineLaws(w, w', Combine(AND, h, h'));
      CombineLaws(w', h, h');
      CombineLaws(h, w', h');
      CombineLaws(w, h, Combine(AND, w', h'));
    } else {
      AndCriterionMeaning(m, v);
      AndCriterionMeaning(n, v);
    }
  }

  lemma AndCriterionMeaning(m: QueryModifier, v: Assignment)
    ensures Eval(m.AndCriterion(), v) == m.Meaning(v)
  {}

  lemma InvertMeaning(m: QueryModifier, v: Assignment)
    ensures m.Invert().Meaning(v) == Complement(m.Meaning(v))
  {
    if !m.having.Empty? {
      assert Eval(Ampersand(m.where, m.having), v) == m.Meaning(v);
    }
  }

  /** Where the two parts end up: aggregates never reach WHERE, and HAVING is used exactly when
      one of the operands uses it. */
  lemma JoinSplit(c: Connective, m: QueryModifier, n: QueryModifier)
    requires m.WellSplit() && n.WellSplit()
    ensures m.Join(c, n).WellSplit()
    ensures m.Join(c, n).having.Empty? <==> m.having.Empty? && n.having.Empty?
  {}

  lemma InvertSplit(m: QueryModifier)
    requires m.WellSplit()
    ensures m.Invert().WellSplit()
    ensures m.Invert().having.Empty? <==> m.having.Empty?
  {}
}
