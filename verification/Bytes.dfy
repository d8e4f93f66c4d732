/** Fixed-width integers and the byte strings that travel on the wire. */
module Bytes {

  type u8 = x: int | 0 <= x < 0x100
  type u16 = x: int | 0 <= x < 0x1_0000

  type Bytes = seq<u8>

  datatype Option<+T> = None | Some(value: T)

  /** Little-endian image of a 16-bit integer. */
  function PutU16(v: u16): (r: Bytes)
  {
    [v % 0x100, v / 0x100]
  }

  function GetU16(lo: u8, hi: u8): (v: u16)
    ensures PutU16(v) == [lo, hi]
  {
    lo + 0x100 * hi
  }

  lemma U16RoundTrip(v: u16)
    ensures |PutU16(v)| == 2 && GetU16(PutU16(v)[0], PutU16(v)[1]) == v
  {
  }

  function Last<T>(s: seq<T>): T
    requires s != []
  {
    s[|s| - 1]
  }

  /** bisect_right: the length of the head of a sequence of times that ends with the last one at or before t. */
  function Bisect(times: seq<nat>, t: nat): (n: nat)
    ensures n <= |times|
    ensures n > 0 ==> times[n - 1] <= t
    ensures forall i :: n <= i < |times| ==> times[i] > t
  {
    if times == [] then 0
    else if Last(times) <= t then |times|
    else Bisect(times[..|times| - 1], t)
  }

  lemma {:induction false} BisectIs(times: seq<nat>, t: nat, n: nat)
    requires n <= |times| && (forall i :: 0 <= i < n ==> times[i] <= t)
               && (forall i :: n <= i < |times| ==> times[i] > t)
    ensures Bisect(times, t) == n
  {
    if n < |times| { BisectIs(times[..|times| - 1], t, n); }
  }
}
