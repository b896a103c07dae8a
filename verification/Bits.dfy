/** C's uint8 and uint32 values as vectors of bits, least significant bit first.
    The operators & | ~ << >> act on every bit separately, exactly as in C. */
module Bits {
  type Byte = b: seq<bool> | |b| == 8 witness Constant(8, false)
  type Word = w: seq<bool> | |w| == 32 witness Constant(32, false)

  function Constant(n: nat, b: bool): (s: seq<bool>)
    ensures |s| == n
  {
    seq(n, _ => b)
  }

  function ZeroByte(): Byte { Constant(8, false) }

  function Zero(): Word { Constant(32, false) }

  function Ones(): Word { Constant(32, true) }

  function One(): Word { seq(32, i => i == 0) }

  function And(x: Word, y: Word): Word {
    seq(32, i requires 0 <= i < 32 => x[i] && y[i])
  }

  function Or(x: Word, y: Word): Word {
    seq(32, i requires 0 <= i < 32 => x[i] || y[i])
  }

  function Not(x: Word): Word {
    seq(32, i requires 0 <= i < 32 => !x[i])
  }

  // A shift by 32 or more is undefined in C.
  function Shl(x: Word, n: nat): Word
    requires n < 32
  {
    seq(32, i requires 0 <= i < 32 => i >= n && x[i - n])
  }

  function Shr(x: Word, n: nat): Word
    requires n < 32
  {
    seq(32, i requires 0 <= i < 32 => i + n < 32 && x[i + n])
  }

  // The conversion (uint32)byte.
  function Extend(b: Byte): Word {
    seq(32, i requires 0 <= i < 32 => i < 8 && b[i])
  }

  // The conversion (uint8)word.
  function LowByte(w: Word): Byte {
    w[..8]
  }

  // The low n bits set: 0xFFFFFFFF >> (32 - n).
  function Mask(n: nat): Word
    requires 1 <= n <= 32
  {
    Shr(Ones(), 32 - n)
  }

  // Bit p of a byte buffer: bit p % 8 of byte p / 8.
  predicate BitAt(buf: seq<Byte>, p: nat)
    requires p < 8 * |buf|
  {
    buf[p / 8][p % 8]
  }

  lemma {:induction false} SameBits(a: seq<Byte>, b: seq<Byte>)
    requires |a| == |b|
    requires forall p :: 0 <= p < 8 * |a| ==> BitAt(a, p) == BitAt(b, p)
    ensures a == b
  {
    forall k | 0 <= k < |a| ensures a[k] == b[k] {
      forall t | 0 <= t < 8 ensures a[k][t] == b[k][t] {
        var p := 8 * k + t;
        assert p / 8 == k && p % 8 == t;
        assert BitAt(a, p) == BitAt(b, p);
      }
    }
  }

  // The value of the n low bits of v, most significant bit at n - 1.
  function Value(v: seq<bool>, n: nat): (r: nat)
    requires n <= |v|
  {
    if n == 0 then 0 else Value(v, n - 1) + (if v[n - 1] then Power2(n - 1) else 0)
  }

  function Power2(n: nat): (r: nat)
    ensures r >= 1
  {
    if n == 0 then 1 else 2 * Power2(n - 1)
  }

  lemma {:induction false} ValueBound(v: seq<bool>, n: nat)
    requires n <= |v|
    ensures Value(v, n) < Power2(n)
  {
    if n > 0 { ValueBound(v, n - 1); }
  }

  // Equal low bits give equal values.
  lemma {:induction false} ValueOfSameBits(v: seq<bool>, w: seq<bool>, n: nat)
    requires n <= |v| && n <= |w|
    requires forall i :: 0 <= i < n ==> v[i] == w[i]
    ensures Value(v, n) == Value(w, n)
  {
    if n > 0 { ValueOfSameBits(v, w, n - 1); }
  }

  // Bits n .. m-1 all set contribute 2^m - 2^n.
  lemma {:induction false} ValueOfHighOnes(v: seq<bool>, n: nat, m: nat)
    requires n <= m <= |v|
    requires forall i :: n <= i < m ==> v[i]
    ensures Value(v, m) == Value(v, n) + Power2(m) - Power2(n)
    decreases m - n
  {
    if n < m { ValueOfHighOnes(v, n, m - 1); }
  }

  // Bits n .. m-1 all clear contribute nothing.
  lemma {:induction false} ValueOfHighZeros(v: seq<bool>, n: nat, m: nat)
    requires n <= m <= |v|
    requires forall i :: n <= i < m ==> !v[i]
    ensures Value(v, m) == Value(v, n)
    decreases m - n
  {
    if n < m { ValueOfHighZeros(v, n, m - 1); }
  }

  // A set bit i weighs Power2(i).
  lemma {:induction false} ValueAtLeast(v: seq<bool>, m: nat, i: nat)
    requires i < m <= |v| && v[i]
    ensures Value(v, m) >= Power2(i)
  {
    if i < m - 1 { ValueAtLeast(v, m - 1, i); }
  }

  // A clear bit i keeps the value that far below all ones.
  lemma {:induction false} ValueAtMost(v: seq<bool>, m: nat, i: nat)
    requires i < m <= |v| && !v[i]
    ensures Value(v, m) + Power2(i) < Power2(m)
  {
    if i < m - 1 { ValueAtMost(v, m - 1, i); } else { ValueBound(v, m - 1); }
  }

  lemma {:induction false} Power2Monotone(i: nat, j: nat)
    requires i <= j
    ensures Power2(i) <= Power2(j)
    decreases j - i
  {
    if i < j { Power2Monotone(i, j - 1); }
  }
}
