/** Values that may be absent (the source's `null` and `undefined`), and the lookup of a
    table row by a unique key. */
module Options {
  datatype Option<+T> = None | Some(value: T)

  /** The first row with this key. */
  function PositionOf<T, K(==)>(rows: seq<T>, keyOf: T -> K, key: K): (r: Option<nat>)
    ensures r.Some? ==> r.value < |rows| && keyOf(rows[r.value]) == key
    ensures r.None? ==> forall i :: 0 <= i < |rows| ==> keyOf(rows[i]) != key
  {
    if |rows| == 0 then None
    else
      var earlier := PositionOf(rows[..|rows| - 1], keyOf, key);
      if earlier.Some? then earlier
      else if keyOf(rows[|rows| - 1]) == key then Some(|rows| - 1)
      else None
  }
}
