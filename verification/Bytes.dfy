/** Bytes and little-endian numbers. */
module Bytes {

  type Byte = b: int | 0 <= b < 0x100

  /** A little-endian 16-bit field. */
  function U16(lo: Byte, hi: Byte): (n: nat)
    ensures n < 0x10000
  {
    lo as int + 0x100 * (hi as int)
  }

  /** The number of values of `k` bytes. */
  function Span(k: nat): (n: nat)
    ensures n > 0
  {
    if k == 0 then 1 else 0x100 * Span(k - 1)
  }

  function ToLe(v: nat, k: nat): (s: seq<Byte>)
    ensures |s| == k
  {
    if k == 0 then [] else [v % 0x100] + ToLe(v / 0x100, k - 1)
  }

  function FromLe(s: seq<Byte>): nat {
    if s == [] then 0 else s[0] as int + 0x100 * FromLe(s[1..])
  }

  lemma {:induction false} FromToLe(v: nat, k: nat)
    requires v < Span(k)
    ensures FromLe(ToLe(v, k)) == v
    decreases k
  {
    if k > 0 { FromToLe(v / 0x100, k - 1); }
  }

  /** A number without its `i` lowest bytes. */
  function Shift(v: nat, i: nat): nat {
    if i == 0 then v else Shift(v / 0x100, i - 1)
  }

  /** Least significant byte first. */
  lemma {:induction false} LeByteAt(v: nat, k: nat, i: nat)
    requires i < k
    ensures ToLe(v, k)[i] == Shift(v, i) % 0x100
    ensures ToLe(v, k)[0] == v % 0x100
    decreases i
  {
    if i > 0 { LeByteAt(v / 0x100, k - 1, i - 1); }
  }

  lemma {:induction false} ToFromLe(s: seq<Byte>)
    ensures ToLe(FromLe(s), |s|) == s && FromLe(s) < Span(|s|)
    decreases |s|
  {
    if s != [] {
      ToFromLe(s[1..]);
      var rest := FromLe(s[1..]);
      assert (s[0] as int + 0x100 * rest) / 0x100 == rest;
    }
  }

  predicate FitsSigned(v: int, k: nat) {
    2 * v < Span(k) && 0 <= 2 * v + Span(k)
  }

  /** Two's complement of a value that fits. */
  function Wrap(v: int, k: nat): nat {
    var w: int := v + Span(k);
    if v >= 0 then v else if w >= 0 then w else 0
  }

  function Unwrap(n: nat, k: nat): int {
    var i: int := n;
    if 2 * n >= Span(k) then i - Span(k) else i
  }

  lemma UnwrapWrap(v: int, k: nat)
    requires FitsSigned(v, k)
    ensures Wrap(v, k) < Span(k) && Unwrap(Wrap(v, k), k) == v
    ensures Wrap(v, k) == if v >= 0 then v else Span(k) + v
  {
  }

  lemma WrapUnwrap(n: nat, k: nat)
    requires n < Span(k)
    ensures FitsSigned(Unwrap(n, k), k) && Wrap(Unwrap(n, k), k) == n
  {
  }
}
