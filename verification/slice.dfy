/** JavaScript's `Array.prototype.slice` for non-negative bounds, as the controller uses it. */
module Slice {

  function Min(a: int, b: int): int {
    if a <= b then a else b
  }

  /** `s.slice(start, end)`: both bounds are clamped to the length, and an end at or
      before the start yields the empty array. The result is the run of `s` that begins
      at `start`. */
  function JsSlice<T>(s: seq<T>, start: nat, end: nat): (r: seq<T>)
    ensures |r| == if start < end && start < |s| then Min(end, |s|) - start else 0
    ensures forall i :: 0 <= i < |r| ==> r[i] == s[start + i]
  {
    var lo := Min(start, |s|);
    var hi := Min(end, |s|);
    if lo < hi then s[lo..hi] else []
  }
}
