/** Values shared by the whole model. */
module Common {
  datatype Option<+T> = None | Some(value: T)

  datatype Result<+T, +E> = Ok(value: T) | Err(error: E)

  /** A field of a request body: left out, set to null, or given a value. */
  datatype Field<+T> = Absent | Null | Given(value: T)

  /** What a stored field becomes under an update that sets exactly the fields that are not absent. */
  function Stored<T>(f: Field<T>, before: Option<T>): Option<T> {
    match f
    case Absent => before
    case Null => None
    case Given(v) => Some(v)
  }

  /** One day, in milliseconds. */
  const DAY_MS := 24 * 60 * 60 * 1000

  function GetOr<T>(o: Option<T>, default: T): T {
    match o
    case Some(v) => v
    case None => default
  }

  ghost predicate Distinct<T>(s: seq<T>) {
    forall i, j | 0 <= i < j < |s| :: s[i] != s[j]
  }

  /** Where in a list the elements with a property are. */
  ghost function PositionsOf<T>(s: seq<T>, p: T -> bool): set<int> {
    set i | 0 <= i < |s| && p(s[i])
  }

  lemma PositionsStep<T>(s: seq<T>, p: T -> bool)
    requires s != []
    ensures |PositionsOf(s, p)| == |PositionsOf(s[..|s| - 1], p)| + if p(s[|s| - 1]) then 1 else 0
  {
    var n := |s| - 1;
    assert PositionsOf(s, p) == PositionsOf(s[..n], p) + if p(s[n]) then {n} else {};
  }
}
