/** What several parts of the model share. */
module Basics {
  const UINT64_MAX: nat := 0xFFFF_FFFF_FFFF_FFFF

  type Byte = n: nat | n < 256

  datatype Option<T> = None | Some(value: T)

  ghost predicate NoRepeats(xs: seq<nat>)
  {
    forall i, j :: 0 <= i < j < |xs| ==> xs[i] != xs[j]
  }

  function Min(a: nat, b: nat): nat { if a <= b then a else b }

  function Max(a: nat, b: nat): nat { if a <= b then b else a }
}
