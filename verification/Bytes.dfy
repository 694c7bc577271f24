/** Bytes, host words and in-place copies: the C idioms shared by the frame and element code. */
module Bytes {
  type byte = x: int | 0 <= x < 256

  datatype Option<+T> = None | Some(value: T)

  const ETH_ALEN := 6

  /** A hardware address: six bytes. */
  type Mac = m: seq<byte> | |m| == 6 witness [0, 0, 0, 0, 0, 0]

  /** `s` with the bytes from `at` on replaced by `d`. */
  function Overwrite(s: seq<byte>, at: nat, d: seq<byte>): (r: seq<byte>)
    requires at + |d| <= |s|
    ensures |r| == |s|
  {
    seq(|s|, i requires 0 <= i < |s| => if at <= i < at + |d| then d[i - at] else s[i])
  }

  function Zeros(n: nat): (s: seq<byte>)
    ensures |s| == n
  {
    seq(n, _ => 0)
  }

  lemma SliceOfSlice<T>(s: seq<T>, a: nat, b: nat, c: nat, d: nat)
    requires a <= b <= |s| && c <= d <= b - a
    ensures s[a..b][c..d] == s[a + c..a + d]
  {
    var x, y := s[a..b][c..d], s[a + c..a + d];
    assert forall k :: 0 <= k < d - c ==> x[k] == s[a..b][c + k] == s[a + c + k] == y[k];
  }

  /** Two bytes in network order. */
  function Net16(hi: byte, lo: byte): (w: nat)
    ensures w < 0x10000
  {
    hi * 256 + lo
  }

  /** Sixteen bits as two bytes in network order. */
  function ToNet16(w: nat): (d: seq<byte>)
    requires w < 0x10000
    ensures |d| == 2 && Net16(d[0], d[1]) == w
  {
    [w / 256, w % 256]
  }

  /** Exclusive or, bit by bit. */
  function Xor(a: nat, b: nat): nat
    decreases a + b
  {
    if a + b == 0 then 0 else 2 * Xor(a / 2, b / 2) + (a + b) % 2
  }

  /** Exclusive or of the bytes s[lo..hi]. */
  function XorRange(s: seq<byte>, lo: nat, hi: nat): nat
    requires lo <= hi <= |s|
    decreases hi - lo
  {
    if lo == hi then 0 else Xor(s[lo], XorRange(s, lo + 1, hi))
  }

  /** memmove: all source bytes are read before any is written. */
  method Memmove(a: array<byte>, dst: nat, src: nat, n: nat)
    requires dst + n <= a.Length && src + n <= a.Length
    modifies a
    ensures a[..] == Overwrite(old(a[..]), dst, old(a[src..src + n]))
  {
    forall k | 0 <= k < n {
      a[dst + k] := a[src + k];
    }
  }

  /** memcpy from bytes that do not lie in `a`. */
  method Memcpy(a: array<byte>, dst: nat, d: seq<byte>)
    requires dst + |d| <= a.Length
    modifies a
    ensures a[..] == Overwrite(old(a[..]), dst, d)
  {
    forall k | 0 <= k < |d| {
      a[dst + k] := d[k];
    }
  }
}
