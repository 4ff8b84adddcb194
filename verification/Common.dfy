/** What several modules share. */
module Common {
  datatype Option<+T> = None | Some(value: T)

  function RemoveAt<T>(xs: seq<T>, i: nat): seq<T>
    requires i < |xs|
  {
    xs[..i] + xs[i + 1..]
  }
}
