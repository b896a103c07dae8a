/** What several modules share: bytes, optional results, and copying into buffers. */
module Prelude {
  newtype byte = x: int | 0 <= x < 0x100

  newtype uint16 = x: int | 0 <= x < 0x1_0000

  datatype Option<T> = None | Some(value: T)

  function AtLeastOne(n: nat): (m: nat)
    ensures m >= 1 && m >= n
  {
    if n == 0 then 1 else n
  }

  // memcpy: data placed at a position of a buffer that has room for it.
  function Write<T>(buf: seq<T>, at: nat, data: seq<T>): (r: seq<T>)
    requires at + |data| <= |buf|
    ensures |r| == |buf|
  {
    buf[..at] + data + buf[at + |data|..]
  }

  // What a callback leaves in a field of n elements: its data, cut or filled up.
  function FitTo<T>(data: seq<T>, n: nat, filler: T): (r: seq<T>)
    ensures |r| == n
  {
    if n <= |data| then data[..n] else data + seq(n - |data|, _ => filler)
  }
}
