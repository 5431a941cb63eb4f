/** The single-element helpers of src/utils.rs. `epoch()` reads the wall
    clock and is not modelled: callers take the time as a parameter. */
module Utils {
  import opened Wrappers

  /** `only_or_error`: the one element of a one-element vector. Any other
      length makes the source panic, which callers must rule out. */
  function OnlyOrError<T>(v: seq<T>): (x: T)
    requires |v| == 1
    ensures v == [x]
  {
    v[0]
  }

  /** `only_or_none`: the one element of a one-element vector, or `None`. */
  function OnlyOrNone<T>(v: seq<T>): (r: Option<T>)
    ensures r.Some? <==> |v| == 1
    ensures r.Some? ==> v == [r.value]
  {
    if |v| == 1 then Some(v[0]) else None
  }

  /** The two helpers agree wherever `only_or_error` does not panic, and
      `only_or_none` answers `None` exactly where it would. */
  lemma OnlyOrNoneAgrees<T>(v: seq<T>)
    ensures |v| == 1 ==> OnlyOrNone(v) == Some(OnlyOrError(v))
    ensures |v| != 1 ==> OnlyOrNone(v) == None
    ensures forall x :: OnlyOrNone(v) == Some(x) <==> v == [x]
  {
  }
}
