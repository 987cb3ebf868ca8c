/** Shared vocabulary: bytes and the conventional option type. */
module Basics {
  type byte = b: int | 0 <= b < 256

  datatype Option<+T> = None | Some(value: T)

  function Min(a: int, b: int): int { if a <= b then a else b }
  function Max(a: int, b: int): int { if a <= b then b else a }

  /** Rust's `v.clamp(lo, hi)`, for lo <= hi. */
  function Clamp(v: int, lo: int, hi: int): int
    requires lo <= hi
  {
    if v < lo then lo else if v > hi then hi else v
  }

  /** A slice of a slice. */
  lemma SubSlice<T>(s: seq<T>, at: nat, len: nat, lo: nat, hi: nat)
    requires lo <= hi <= len && at + len <= |s|
    ensures s[at..at + len][lo..hi] == s[at + lo..at + hi]
  {
    var outer := s[at..at + len];
    var a, b := outer[lo..hi], s[at + lo..at + hi];
    assert |a| == |b|;
    forall i | 0 <= i < |a|
      ensures a[i] == b[i]
    {
      assert a[i] == outer[lo + i] && outer[lo + i] == s[at + (lo + i)];
    }
  }
}
