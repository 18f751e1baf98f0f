// Three-valued logic, as SQL evaluates conditions, and the "no condition at all" value on top of it.
module Kleene {

  datatype Truth = True | False | Unknown

  function And3(a: Truth, b: Truth): Truth {
    if a == False || b == False then False
    else if a == Unknown || b == Unknown then Unknown
    else True
  }

  function Or3(a: Truth, b: Truth): Truth {
    if a == True || b == True then True
    else if a == Unknown || b == Unknown then Unknown
    else False
  }

  function Not3(a: Truth): Truth {
    match a
    case True => False
    case False => True
    case Unknown => Unknown
  }

  function FromBool(b: bool): Truth {
    if b then True else False
  }

  /** The meaning of a condition that may be absent: `Nothing` restricts nothing. */
  datatype Verdict = Nothing | Just(truth: Truth)

  datatype Connective = AND | OR

  /** Joins two conditions; an absent one is neutral on either side. */
  function Combine(c: Connective, a: Verdict, b: Verdict): Verdict {
    match (a, b)
    case (Nothing, _) => b
    case (_, Nothing) => a
    case (Just(x), Just(y)) => Just(if c == AND then And3(x, y) else Or3(x, y))
  }

  function Complement(a: Verdict): Verdict {
    match a
    case Nothing => Nothing
    case Just(x) => Just(Not3(x))
  }
}
