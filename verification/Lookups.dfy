// The comparison operators of tortoise/filters.py, read as SQL conditions over possibly-NULL values.
module Lookups {
  import opened Common
  import opened Kleene

  /** An operator of the filter table together with the value it was given. */
  datatype Lookup =
    | Eq(v: Value)
    | NotEqual(v: Value)
    | IsIn(vs: seq<Value>)
    | NotIn(vs: seq<Value>)
    | IsNull(flag: bool)
    | NotNull(flag: bool)
    | Greater(v: Value)

  function SqlEq(a: Value, b: Value): Truth {
    if a.Null? || b.Null? then Unknown else FromBool(a == b)
  }

  function SqlGreater(a: Value, b: Value): Truth {
    if a.Null? || b.Null? then Unknown else FromBool(a.n > b.n)
  }

  /** SQL's `x IN (vs)`: a chain of equalities. */
  function SqlIn(x: Value, vs: seq<Value>): Truth {
    if vs == [] then False else Or3(SqlEq(x, vs[0]), SqlIn(x, vs[1..]))
  }

  function Holds(l: Lookup, x: Value): Truth {
    match l
    case Eq(v) => SqlEq(x, v)
    case NotEqual(v) => Or3(Not3(SqlEq(x, v)), FromBool(x.Null?))
    case IsIn(vs) => if vs != [] then SqlIn(x, vs) else False
    case NotIn(vs) => if vs != [] then Or3(Not3(SqlIn(x, vs)), FromBool(x.Null?)) else True
    case IsNull(flag) => FromBool(flag == x.Null?)
    case NotNull(flag) => FromBool(flag != x.Null?)
    case Greater(v) => SqlGreater(x, v)
  }

  /** Whether a lookup accepts the NULLs that an outer join supplies for a missing row. */
  predicate AcceptsNull(l: Lookup) {
    match l
    case NotEqual(_) => true
    case NotIn(_) => true
    case IsNull(flag) => flag
    case NotNull(flag) => !flag
    case _ => false
  }

  /** `IN` decides membership: true, false and unknown are each given by an exact condition. */
  lemma {:induction false} InDecidesMembership(x: Value, vs: seq<Value>)
    ensures SqlIn(x, vs) == True <==> x.Val? && x in vs
    ensures SqlIn(x, vs) == Unknown <==> vs != [] && (x.Null? || (x !in vs && Null in vs))
  {
    if vs != [] {
      InDecidesMembership(x, vs[1..]);
      assert forall v :: v in vs <==> v == vs[0] || v in vs[1..];
    }
  }

  lemma InOnNull(vs: seq<Value>)
    ensures vs != [] ==> SqlIn(Null, vs) == Unknown
  {
    InDecidesMembership(Null, vs);
  }

  lemma AcceptsNullIsExact(l: Lookup)
    ensures Holds(l, Null) == True <==> AcceptsNull(l)
  {
    if l.IsIn? || l.NotIn? {
      InOnNull(l.vs);
    }
  }

  /** `not_in` is the Boolean complement of `in` on every value exactly when its list has no NULL;
      with a NULL in the list it turns unknown on every other present value. */
  lemma NotInComplementsIn(vs: seq<Value>)
    ensures (forall x :: Holds(NotIn(vs), x) == FromBool(Holds(IsIn(vs), x) != True)) <==> Null !in vs
  {
    if Null !in vs {
      forall x ensures Holds(NotIn(vs), x) == FromBool(Holds(IsIn(vs), x) != True) {
        InDecidesMembership(x, vs);
      }
    } else {
      var x := Fresh(vs);
      InDecidesMembership(x, vs);
      assert Holds(NotIn(vs), x) == Unknown;
    }
  }

  /** `NOT IN (1, NULL)` is unknown for 2, which is not in the list. */
  lemma NotInWithNullIsUnknown()
    ensures Holds(IsIn([Val(1), Null]), Val(2)) != True && Holds(NotIn([Val(1), Null]), Val(2)) == Unknown
  {
    InDecidesMembership(Val(2), [Val(1), Null]);
  }

  /** A present value that a finite list does not mention. */
  ghost function Fresh(vs: seq<Value>): (x: Value)
    ensures x.Val? && x !in vs && forall v <- vs :: v.Val? ==> v.n < x.n
  {
    if vs == [] then Val(0)
    else
      var x := Fresh(vs[1..]);
      assert forall v <- vs :: v == vs[0] || v in vs[1..];
      if vs[0].Val? && vs[0].n >= x.n then Val(vs[0].n + 1) else x
  }

  /** `not_equal` complements equality on every value exactly when it is given a present value. */
  lemma NotEqualComplementsEq(v: Value)
    ensures (forall x :: Holds(NotEqual(v), x) == FromBool(Holds(Eq(v), x) != True)) <==> v.Val?
  {
    if v.Null? {
      assert Holds(NotEqual(v), Val(0)) == Unknown;
    }
  }
}
