/** Sequences with one element more, or one less. */
module Sequences {
  function InsertAt<T>(s: seq<T>, j: nat, x: T): (r: seq<T>)
    requires j <= |s|
  {
    seq(|s| + 1, i requires 0 <= i <= |s| => if i < j then s[i] else if i == j then x else s[i - 1])
  }

  function RemoveAt<T>(s: seq<T>, j: nat): (r: seq<T>)
    requires j < |s|
  {
    seq(|s| - 1, i requires 0 <= i < |s| - 1 => if i < j then s[i] else s[i + 1])
  }
}
