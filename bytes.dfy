/** Octets, and the "binary strings" JavaScript uses to carry them (one
    character per octet, as `atob` returns and `btoa` expects). */
module Bytes {

  type byte = x: int | 0 <= x < 256

  /** The binary string whose i-th character has code `bs[i]`. */
  function Latin1(bs: seq<byte>): (s: string)
    ensures |s| == |bs|
    ensures forall i :: 0 <= i < |bs| ==> s[i] as int == bs[i]
  {
    seq(|bs|, i requires 0 <= i < |bs| => bs[i] as char)
  }

  /** True when every character of `s` fits in one octet. */
  predicate IsBinary(s: string) {
    forall i :: 0 <= i < |s| ==> s[i] as int < 256
  }

  /** The octets of a binary string; the inverse of Latin1. */
  function Latin1Bytes(s: string): (bs: seq<byte>)
    requires IsBinary(s)
    ensures Latin1(bs) == s
  {
    seq(|s|, i requires 0 <= i < |s| => s[i] as int)
  }
}
