/** Bytes in memory. */
module Bytes {
  import opened Wrappers

  /** memcpy: the bytes `s` go to the array from `at` on. */
  method Store(out: array<byte>, at: nat, s: seq<byte>)
    requires at + |s| <= out.Length
    modifies out
    ensures out[..at] == old(out[..at]) && out[at..at + |s|] == s
  {
    forall i | 0 <= i < |s| {
      out[at + i] := s[i];
    }
  }
}
