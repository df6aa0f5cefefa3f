/** Bytes as small integers, and the zero-filled strings that allocation produces. */
module Octets {
  type Octet = x: int | 0 <= x < 256

  function Zeros(n: nat): (z: seq<Octet>)
    ensures |z| == n && forall i :: 0 <= i < n ==> z[i] == 0
  {
    seq(n, _ => 0)
  }

  /** `s` cut to `n` octets, or filled up with zeros to `n` octets. */
  function Fit(s: seq<Octet>, n: nat): (r: seq<Octet>)
    ensures |r| == n
    ensures forall i :: 0 <= i < n ==> r[i] == if i < |s| then s[i] else 0
  {
    if n <= |s| then s[..n] else s + Zeros(n - |s|)
  }

  /** `d` laid over `s` at `pos`; a gap between the end of `s` and `pos` reads as zeros. */
  function Overlay(s: seq<Octet>, pos: nat, d: seq<Octet>): (r: seq<Octet>)
    ensures |r| == if |s| < pos + |d| then pos + |d| else |s|
    ensures forall i :: 0 <= i < |r| ==>
      r[i] == if pos <= i < pos + |d| then d[i - pos] else if i < |s| then s[i] else 0
  {
    var base := Fit(s, if |s| < pos + |d| then pos + |d| else |s|);
    base[..pos] + d + base[pos + |d|..]
  }
}
