/** Small definitions that several modules share. */
module Common {

  datatype Option<+T> = None | Some(value: T)

  /** A sequence without its `i`-th element. */
  function Without<T>(xs: seq<T>, i: nat): (r: seq<T>)
    requires i < |xs|
    ensures |r| == |xs| - 1
    ensures (forall k | 0 <= k < i :: r[k] == xs[k]) && (forall k | i <= k < |r| :: r[k] == xs[k + 1])
  {
    xs[..i] + xs[i + 1..]
  }
}
