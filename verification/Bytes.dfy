/** Byte strings, with Python's slicing and the big-endian 16-bit integers of MQTT. */
module Bytes {

  newtype byte = n: int | 0 <= n < 256

  type bytes = seq<byte>

  /** Python's s[lo:hi]: out-of-range bounds are cut to the length. */
  function Slice<T>(s: seq<T>, lo: nat, hi: nat): (r: seq<T>)
    requires lo <= hi
    ensures |r| <= hi - lo
  {
    if hi <= |s| then s[lo..hi] else if lo <= |s| then s[lo..] else []
  }

  /** Python's s[lo:]. */
  function From<T>(s: seq<T>, lo: nat): seq<T> {
    if lo <= |s| then s[lo..] else []
  }

  lemma SplitFrom<T>(s: seq<T>, lo: nat, hi: nat)
    requires lo <= hi
    ensures From(s, lo) == Slice(s, lo, hi) + From(s, hi)
    ensures |Slice(s, lo, hi)| < hi - lo ==> hi > |s|
  {
  }

  /** struct.unpack("!H", [hi, lo]). */
  function U16(hi: byte, lo: byte): (n: nat)
    ensures n < 0x1_0000
  {
    256 * (hi as nat) + lo as nat
  }

  function EncodeU16(n: nat): (b: bytes)
    requires n < 0x1_0000
    ensures |b| == 2 && U16(b[0], b[1]) == n
  {
    [(n / 256) as byte, (n % 256) as byte]
  }

  lemma EncodeDecodeU16(hi: byte, lo: byte)
    ensures EncodeU16(U16(hi, lo)) == [hi, lo]
  {
  }

  lemma CutAppend<T>(s: seq<T>, more: seq<T>, n: nat)
    requires n <= |s|
    ensures (s + more)[..n] == s[..n] && (s + more)[n..] == s[n..] + more
  {
  }

  lemma Associate<T>(a: seq<T>, b: seq<T>, c: seq<T>)
    ensures a + b + c == a + (b + c)
  {
  }

  function Concat<T>(parts: seq<seq<T>>): seq<T> {
    if parts == [] then [] else parts[0] + Concat(parts[1..])
  }
}
