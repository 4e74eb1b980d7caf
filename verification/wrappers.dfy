/** The optional-value datatype used for attributes and matches that may be absent
    (Python's None). */
module Wrappers {

  datatype Option<+T> = None | Some(value: T) {

    /** Returns the value in Some, or the default when None (Python's `x or default`). */
    function GetOr(default: T): T {
      match this
      case Some(v) => v
      case None => default
    }
  }

  /** The index of the first Some in `xs` at or after `i`, if any. */
  function FirstSome<T>(xs: seq<Option<T>>, i: nat): (r: Option<nat>)
    requires i <= |xs|
    ensures r.Some? ==> i <= r.value < |xs| && xs[r.value].Some?
    ensures r.Some? ==> forall j :: i <= j < r.value ==> xs[j].None?
    ensures r.None? <==> forall j :: i <= j < |xs| ==> xs[j].None?
    decreases |xs| - i
  {
    if i == |xs| then None
    else if xs[i].Some? then Some(i)
    else FirstSome(xs, i + 1)
  }
}
