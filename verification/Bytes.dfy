/** Bytes and the two searches several formats share. */
module Bytes {
  import opened Wrappers

  type byte = b: int | 0 <= b < 256

  /** Only zero bytes from `from` on. */
  predicate AllZero(data: seq<byte>, from: nat) {
    forall i :: from <= i < |data| ==> data[i] == 0
  }

  /** The first zero byte at or after `from`. */
  function FindNul(data: seq<byte>, from: nat): (at: Option<nat>)
    requires from <= |data|
    ensures at.Some? ==> from <= at.value < |data| && data[at.value] == 0
    decreases |data| - from
  {
    if from == |data| then None else if data[from] == 0 then Some(from) else FindNul(data, from + 1)
  }
}
