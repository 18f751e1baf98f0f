// Datatypes and string helpers shared by several components.
module Common {

  datatype Option<+T> = None | Some(value: T)

  datatype Result<+T, +E> = Ok(value: T) | Err(error: E)

  /** What a column, or a field of an instance, holds. */
  datatype Value = Null | Val(n: int)

  /** Python's truth of such a value. */
  predicate Truthy(v: Value) {
    v.Val? && v.n != 0
  }

  ghost predicate Distinct<T>(s: seq<T>) {
    forall i, j :: 0 <= i < j < |s| ==> s[i] != s[j]
  }

  lemma Member<T>(s: set<T>) returns (x: T)
    requires s != {}
    ensures x in s
  {
    x :| x in s;
  }

  const SEPARATOR: string := "__"

  /** Python's `s.partition("__")`: the part before the first separator, and the part after it. */
  function Partition(s: string): (r: (string, string))
    ensures |r.1| <= |s|
    ensures s != "" ==> |r.1| < |s|
  {
    if |s| < 2 then (s, "")
    else if s[..2] == SEPARATOR then ("", s[2..])
    else
      var rest := Partition(s[1..]);
      ([s[0]] + rest.0, rest.1)
  }

  /** The parts give back the whole, and the separator found is the first one. */
  lemma {:induction false} PartitionRebuilds(s: string)
    ensures Partition(s) == (s, "") || s == Partition(s).0 + SEPARATOR + Partition(s).1
    ensures forall i :: 0 < i < |Partition(s).0| ==> !(Partition(s).0[i - 1] == '_' && Partition(s).0[i] == '_')
    ensures Partition(s) == (s, "") || Partition(s).0 == "" || Partition(s).0[|Partition(s).0| - 1] != '_'
  {
    if |s| >= 2 {
      assert s[..2][0] == s[0] && s[..2][1] == s[1] && s == s[..2] + s[2..];
      if s[..2] != SEPARATOR {
        assert s == [s[0]] + s[1..];
        PartitionRebuilds(s[1..]);
        var head, tail := Partition(s).0, Partition(s[1..]).0;
        assert head == [s[0]] + tail;
        forall i | 0 < i < |head| ensures !(head[i - 1] == '_' && head[i] == '_') {
          assert head[i] == tail[i - 1] && (i > 1 ==> head[i - 1] == tail[i - 2]);
          assert i == 1 ==> tail[0] == s[1];
        }
      }
    }
  }
}
