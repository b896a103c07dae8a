/** Packing of sender-receiver signals of 1 to 32 bits into a DID buffer, at any bit
    position and in either byte order. The C code works through a window of four
    bytes, plus a fifth when the shifted signal does not fit; the specification below
    never mentions windows and says, bit by bit, what the buffer must hold. */
module SRSignal {
  import opened Bits

  datatype Ret = EOk | ENotOk | EPending

  datatype Endian = Big | Little | Undefined

  datatype DataType = Boolean | UInt8 | UInt16 | UInt32 | SInt8 | SInt16 | SInt32

  datatype Data = Data(endian: Endian, dataType: DataType, bits: nat) {
    predicate Valid() { 1 <= bits <= 32 }
  }

  predicate Signed(t: DataType) { t.SInt8? || t.SInt16? || t.SInt32? }

  function Width(t: DataType): (w: nat)
    ensures w == 8 || w == 16 || w == 32
  {
    match t
    case Boolean | UInt8 | SInt8 => 8
    case UInt16 | SInt16 => 16
    case UInt32 | SInt32 => 32
  }

  // ---------- Where a signal lives ----------

  // p ^ 7: the same bit, counted from the other end of its byte.
  function Flip(p: nat): (r: nat)
    ensures r / 8 == p / 8 && r % 8 == 7 - p % 8
  {
    p / 8 * 8 + (7 - p % 8)
  }

  // Position of the least significant bit. A big-endian signal is configured by its
  // most significant bit.
  function LsbIndex(e: Endian, pos: nat, n: nat): nat
    requires n >= 1
  {
    if e.Big? then Flip(Flip(pos) + n - 1) else pos
  }

  predicate InSignal(e: Endian, pos: nat, n: nat, p: nat) {
    if e.Big? then Flip(pos) <= Flip(p) < Flip(pos) + n else pos <= p < pos + n
  }

  // Which bit of the value is stored at buffer bit p.
  function IndexOf(e: Endian, pos: nat, n: nat, p: nat): (j: nat)
    requires InSignal(e, pos, n, p)
    ensures j < n
  {
    if e.Big? then Flip(pos) + n - 1 - Flip(p) else p - pos
  }

  // Where bit j of the value is stored.
  function BitPos(e: Endian, pos: nat, n: nat, j: nat): nat
    requires j < n
  {
    if e.Big? then Flip(Flip(pos) + n - 1 - j) else pos + j
  }

  lemma {:induction false} BitPosInverse(e: Endian, pos: nat, n: nat, j: nat)
    requires j < n
    ensures InSignal(e, pos, n, BitPos(e, pos, n, j))
    ensures IndexOf(e, pos, n, BitPos(e, pos, n, j)) == j
  {
    if e.Big? {
      var x := Flip(pos) + n - 1 - j;
      assert Flip(Flip(x)) == x;
    }
  }

  lemma {:induction false} IndexOfInverse(e: Endian, pos: nat, n: nat, p: nat)
    requires InSignal(e, pos, n, p)
    ensures BitPos(e, pos, n, IndexOf(e, pos, n, p)) == p
  {
    if e.Big? { assert Flip(Flip(p)) == p; }
  }

  predicate SignalFits(e: Endian, pos: nat, n: nat, len: nat)
  {
    forall j :: 0 <= j < n ==> BitPos(e, pos, n, j) < 8 * len
  }

  // ---------- What packing and unpacking mean ----------

  function PackBit(buf: seq<Byte>, e: Endian, pos: nat, n: nat, v: Word, p: nat): bool
    requires n <= 32 && p < 8 * |buf|
  {
    if InSignal(e, pos, n, p) then v[IndexOf(e, pos, n, p)] else BitAt(buf, p)
  }

  function Pack(buf: seq<Byte>, e: Endian, pos: nat, n: nat, v: Word): seq<Byte>
    requires n <= 32
  {
    seq(|buf|, b requires 0 <= b < |buf| =>
      seq(8, t requires 0 <= t < 8 => PackBit(buf, e, pos, n, v, 8 * b + t)))
  }

  lemma {:induction false} PackBits(buf: seq<Byte>, e: Endian, pos: nat, n: nat, v: Word, p: nat)
    requires n <= 32 && p < 8 * |buf|
    ensures |Pack(buf, e, pos, n, v)| == |buf|
    ensures BitAt(Pack(buf, e, pos, n, v), p) == PackBit(buf, e, pos, n, v, p)
  {
    assert 8 * (p / 8) + p % 8 == p;
  }

  function Unpack(buf: seq<Byte>, e: Endian, pos: nat, n: nat): Word
    requires n <= 32 && SignalFits(e, pos, n, |buf|)
  {
    seq(32, j requires 0 <= j < 32 => j < n && BitAt(buf, BitPos(e, pos, n, j)))
  }

  // The signal's own bits come back.
  lemma {:induction false} UnpackOfPack(buf: seq<Byte>, e: Endian, pos: nat, n: nat, v: Word)
    requires n <= 32 && SignalFits(e, pos, n, |buf|)
    ensures |Pack(buf, e, pos, n, v)| == |buf|
    ensures forall j :: 0 <= j < 32 ==> Unpack(Pack(buf, e, pos, n, v), e, pos, n)[j] == (j < n && v[j])
  {
    forall j | 0 <= j < n
      ensures BitAt(Pack(buf, e, pos, n, v), BitPos(e, pos, n, j)) == v[j]
    {
      BitPosInverse(e, pos, n, j);
      PackBits(buf, e, pos, n, v, BitPos(e, pos, n, j));
    }
  }

  // Packing twice at one place keeps the second value only.
  lemma {:induction false} PackOverwrites(buf: seq<Byte>, e: Endian, pos: nat, n: nat, v: Word, w: Word)
    requires n <= 32
    ensures Pack(Pack(buf, e, pos, n, v), e, pos, n, w) == Pack(buf, e, pos, n, w)
  {
    var once := Pack(buf, e, pos, n, v);
    forall p | 0 <= p < 8 * |buf|
      ensures BitAt(Pack(once, e, pos, n, w), p) == BitAt(Pack(buf, e, pos, n, w), p)
    {
      PackBits(buf, e, pos, n, v, p);
      PackBits(buf, e, pos, n, w, p);
      PackBits(once, e, pos, n, w, p);
    }
    SameBits(Pack(once, e, pos, n, w), Pack(buf, e, pos, n, w));
  }

  // ---------- The bytes a signal touches ----------

  function GetNofAffectedBytes(e: Endian, pos: nat, n: nat): nat {
    var bitsInFirstByte := if e.Big? then pos % 8 + 1 else 8 - pos % 8;
    if bitsInFirstByte <= n then 1 + (n - bitsInFirstByte + 7) / 8 else 1
  }

  // The announced byte range is exact: it holds every bit of the signal, and every
  // byte of it holds one.
  lemma {:induction false} AffectedBytesExact(e: Endian, pos: nat, n: nat, b: nat)
    requires 1 <= n
    ensures (exists p :: p / 8 == b && InSignal(e, pos, n, p))
       <==> pos / 8 <= b < pos / 8 + GetNofAffectedBytes(e, pos, n)
  {
    if pos / 8 <= b < pos / 8 + GetNofAffectedBytes(e, pos, n) {
      if e.Big? {
        var x := if b == pos / 8 then Flip(pos) else 8 * b;
        assert Flip(Flip(x)) == x;
        assert Flip(x) / 8 == b && InSignal(e, pos, n, Flip(x));
      } else {
        var x := if b == pos / 8 then pos else 8 * b;
        assert x / 8 == b && InSignal(e, pos, n, x);
      }
    }
    if p :| p / 8 == b && InSignal(e, pos, n, p) {
      assert Flip(p) / 8 == b;
    }
  }

  lemma {:induction false} PackTouchesAffectedBytes(
    buf: seq<Byte>, e: Endian, pos: nat, n: nat, v: Word, b: nat)
    requires 1 <= n <= 32 && b < |buf|
    requires !(pos / 8 <= b < pos / 8 + GetNofAffectedBytes(e, pos, n))
    ensures Pack(buf, e, pos, n, v)[b] == buf[b]
  {
    AffectedBytesExact(e, pos, n, b);
    forall t | 0 <= t < 8 ensures Pack(buf, e, pos, n, v)[b][t] == buf[b][t] {
      var p := 8 * b + t;
      assert p / 8 == b && p % 8 == t;
      PackBits(buf, e, pos, n, v, p);
    }
  }

  // ---------- Values ----------

  // What the read callback stored, seen through the configured data type.
  function DataVal(t: DataType, raw: Word): Word {
    seq(32, i requires 0 <= i < 32 => i < Width(t) && raw[i])
  }

  // Sign bits are added above bit n - 1 for signed types.
  function SignExtend(t: DataType, n: nat, w: Word): Word
    requires 1 <= n <= 32
  {
    seq(32, i requires 0 <= i < 32 => if Signed(t) && w[n - 1] && i >= n - 1 then true else w[i])
  }

  // The number the typed port function sees: the cast of the word to its width.
  function PortValue(t: DataType, w: Word): int {
    if Signed(t) && w[Width(t) - 1] then Value(w, Width(t)) - Power2(Width(t)) else Value(w, Width(t))
  }

  // The numbers an n-bit signal of type t can carry.
  predicate Fits(t: DataType, n: nat, x: int)
    requires n >= 1
  {
    n >= Width(t) || (if Signed(t) then 0 - Power2(n - 1) <= x < Power2(n - 1) else 0 <= x < Power2(n))
  }

  // ---------- The byte-window code ----------

  // The window of four bytes (five when the shifted signal is longer than 32 bits)
  // lies inside the buffer.
  predicate WindowInside(e: Endian, pos: nat, n: nat, start: nat, len: nat)
    requires 1 <= n
  {
    var lsb := LsbIndex(e, pos, n);
    var five := lsb % 8 + n > 32;
    match e
    case Little => start + lsb / 8 + (if five then 4 else 3) < len
    case Big => (if five then 4 else 3) <= start + lsb / 8 < len
    case Undefined => true
  }

  function ByteOf(w: Word, k: nat): Byte
    requires k < 4
  {
    w[8 * k..8 * k + 8]
  }

  // The window as one number: byte k of the number is byte Place(e, q, k) of the buffer.
  function Place(e: Endian, q: nat, k: nat): int {
    if e.Big? then q + 3 - k else q + k
  }

  predicate IsWindow(buf: seq<Byte>, e: Endian, q: nat, w: Word)
    requires q + 4 <= |buf|
  {
    forall k | 0 <= k < 4 :: ByteOf(w, k) == buf[Place(e, q, k)]
  }

  method LoadWindow(buf: array<Byte>, e: Endian, q: nat) returns (w: Word)
    requires q + 4 <= buf.Length
    ensures IsWindow(buf[..], e, q, w)
  {
    w := Zero();
    if e.Big? {
      var i := 0;
      while i < 4
        invariant 0 <= i <= 4
        invariant forall k | 0 <= k < i :: ByteOf(w, k) == buf[q + i - 1 - k]
      {
        ghost var before := w;
        w := Or(Shl(w, 8), Extend(buf[q + i]));
        assert forall k | 1 <= k <= i && k < 4 :: ByteOf(w, k) == ByteOf(before, k - 1);
        assert ByteOf(w, 0) == buf[q + i];
        i := i + 1;
      }
    } else {
      var i := 3;
      while i >= 0
        invariant -1 <= i <= 3
        invariant forall k | 0 <= k < 3 - i :: ByteOf(w, k) == buf[q + i + 1 + k]
      {
        ghost var before := w;
        w := Or(Shl(w, 8), Extend(buf[q + i]));
        assert forall k | 1 <= k <= 3 - i && k < 4 :: ByteOf(w, k) == ByteOf(before, k - 1);
        assert ByteOf(w, 0) == buf[q + i];
        i := i - 1;
      }
    }
  }

  method StoreWindow(buf: array<Byte>, e: Endian, q: nat, w: Word)
    requires q + 4 <= buf.Length
    modifies buf
    ensures IsWindow(buf[..], e, q, w)
    ensures forall b | 0 <= b < buf.Length && !(q <= b < q + 4) :: buf[b] == old(buf[b])
  {
    var rest := w;
    var k := 0;
    while k < 4
      invariant 0 <= k <= 4
      invariant forall t | 0 <= t < 32 - 8 * k :: rest[t] == w[t + 8 * k]
      invariant forall j | 0 <= j < k :: buf[Place(e, q, j)] == ByteOf(w, j)
      invariant forall b | 0 <= b < buf.Length && !(q <= b < q + 4) :: buf[b] == old(buf[b])
    {
      ShiftedByte(w, rest, k);
      buf[Place(e, q, k)] := LowByte(rest);
      rest := Shr(rest, 8);
      k := k + 1;
    }
  }

  lemma {:induction false} ShiftedByte(w: Word, rest: Word, k: nat)
    requires k < 4 && forall t | 0 <= t < 32 - 8 * k :: rest[t] == w[t + 8 * k]
    ensures LowByte(rest) == ByteOf(w, k)
    ensures forall t | 0 <= t < 24 - 8 * k :: Shr(rest, 8)[t] == w[t + 8 * k + 8]
  {
  }

  // The word after the signal is merged in at bitShift.
  function Merge(w: Word, v: Word, n: nat, shift: nat): Word
    requires 1 <= n <= 32 && shift < 8
  {
    Or(And(w, Not(Shl(Mask(n), shift))), Shl(v, shift))
  }

  // The fifth byte after the signal's remaining high bits are merged in.
  function MergeHigh(b: Byte, v: Word, n: nat, written: nat): Byte
    requires 1 <= n <= 32 && 25 <= written < n
  {
    LowByte(Or(And(Extend(b), Not(Shr(Mask(n), written))), Shr(v, written)))
  }

  // Both merges, bit by bit. v must already be masked to its n low bits.
  lemma {:induction false} MergeBits(w: Word, b: Byte, v: Word, n: nat, shift: nat)
    requires 1 <= n <= 32 && shift < 8
    requires forall i :: n <= i < 32 ==> !v[i]
    ensures forall j :: 0 <= j < 32 ==>
              Merge(w, v, n, shift)[j] == if shift <= j < shift + n then v[j - shift] else w[j]
    ensures 32 - shift < n ==> forall t :: 0 <= t < 8 ==>
              MergeHigh(b, v, n, 32 - shift)[t] ==
              if t + 32 - shift < n then v[t + 32 - shift] else b[t]
  {
    if 32 - shift < n {
      var written := 32 - shift;
      forall t | 0 <= t < 8
        ensures MergeHigh(b, v, n, written)[t] == if t + written < n then v[t + written] else b[t]
      {
        assert Shr(Mask(n), written)[t] == (t + written < 32 && Mask(n)[t + written]);
        assert t + written < 32 ==> Mask(n)[t + written] == (t + written < n);
        assert Extend(b)[t] == b[t];
        assert Shr(v, written)[t] == (t + written < 32 && v[t + written]);
      }
    }
  }

  lemma {:induction false} MaskBits(x: Word, n: nat)
    requires 1 <= n <= 32
    ensures forall i :: 0 <= i < 32 ==> And(x, Mask(n))[i] == (i < n && x[i])
  {
  }

  // The size check of the program only sees the announced bytes. Of a signal it accepts, the
  // window stays inside the buffer exactly if the signal is big-endian or four bytes are left
  // from its first byte on. The data of a DID never starts in the first three bytes.
  lemma {:induction false} AcceptedStaysInside(e: Endian, pos: nat, n: nat, start: nat, limit: nat)
    requires 1 <= n <= 32 && !e.Undefined? && start >= 3
    requires start + pos / 8 + GetNofAffectedBytes(e, pos, n) <= limit
    ensures WindowInside(e, pos, n, start, limit) <==> e.Big? || start + pos / 8 + 4 <= limit
  {
    var lsb := LsbIndex(e, pos, n);
    if e.Big? {
      assert Flip(lsb) == Flip(pos) + n - 1;
      assert InSignal(e, pos, n, lsb);
      AffectedBytesExact(e, pos, n, lsb / 8);
    } else if lsb % 8 + n > 32 {
      assert InSignal(e, pos, n, pos + n - 1);
      AffectedBytesExact(e, pos, n, (pos + n - 1) / 8);
    }
  }

  // So three bytes of memory behind the buffer are always enough.
  lemma {:induction false} ThreeBytesAreEnough(e: Endian, pos: nat, n: nat, start: nat, limit: nat, len: nat)
    requires 1 <= n <= 32 && start >= 3 && limit + 3 <= len
    requires start + pos / 8 + GetNofAffectedBytes(e, pos, n) <= limit
    ensures WindowInside(e, pos, n, start, len)
  {
    if !e.Undefined? { AcceptedStaysInside(e, pos, n, start, len); }
  }

  // And fewer are not: wherever the data starts, a signal in the last byte of the buffer is
  // accepted, and its window leaves the buffer.
  lemma {:induction false} LastByteOverruns(start: nat, limit: nat, len: nat)
    requires 3 <= start < limit <= len < limit + 3
    ensures var pos := 8 * (limit - 1 - start);
            start + pos / 8 + GetNofAffectedBytes(Little, pos, 8) <= limit && !WindowInside(Little, pos, 8, start, len)
  {
    AcceptedStaysInside(Little, 8 * (limit - 1 - start), 8, start, len);
  }

  // inside: the program stays inside the buffer. Where it does not, C says nothing about what
  // happens, and neither does the model.
  method ReadSRSignal(data: Data, pos: nat, raw: Word, answer: Ret, buf: array<Byte>, start: nat)
    returns (inside: bool, ret: Ret)
    requires data.Valid()
    modifies buf
    ensures inside <==> WindowInside(data.endian, pos, data.bits, start, buf.Length)
    ensures !inside || data.endian.Undefined? ==> ret == ENotOk && buf[..] == old(buf[..])
    ensures inside && !data.endian.Undefined? ==>
              ret == answer
              && buf[..] == Pack(old(buf[..]), data.endian, 8 * start + pos, data.bits, DataVal(data.dataType, raw))
  {
    if !WindowInside(data.endian, pos, data.bits, start, buf.Length) { return false, ENotOk; }
    inside, ret := true, answer;
    var n := data.bits;
    var v := And(DataVal(data.dataType, raw), Mask(n));
    if data.endian.Undefined? {
      ret := ENotOk;
    } else {
      var lsbIndex := LsbIndex(data.endian, pos, n);
      var q := WindowStart(data.endian, pos, n, start);
      var w := LoadWindow(buf, data.endian, q);
      var bitShift := lsbIndex % 8;
      StoreWindow(buf, data.endian, q, Merge(w, v, n, bitShift));
      var maxBitsWritten := 32 - bitShift;
      if maxBitsWritten < n {
        var fifth := Fifth(data.endian, q);
        buf[fifth] := MergeHigh(buf[fifth], v, n, maxBitsWritten);
      }
      PackedByWindow(old(buf[..]), buf[..], data, pos, start, raw, w, q);
    }
  }

  // First byte of the window, and the byte next to it that a long signal also needs.
  function WindowStart(e: Endian, pos: nat, n: nat, start: nat): int
    requires n >= 1
  {
    if e.Big? then start + LsbIndex(e, pos, n) / 8 - 3 else start + LsbIndex(e, pos, n) / 8
  }

  function Fifth(e: Endian, q: int): int {
    if e.Big? then q - 1 else q + 4
  }

  predicate Merged(a: seq<Byte>, b: seq<Byte>, e: Endian, n: nat, v: Word, shift: nat, q: nat, w: Word)
    requires 1 <= n <= 32 && shift < 8
    requires q + 4 <= |a| == |b|
  {
    && IsWindow(a, e, q, w)
    && IsWindow(b, e, q, Merge(w, v, n, shift))
    && forall k | 0 <= k < |a| && !(q <= k < q + 4) ::
      b[k] == if k == Fifth(e, q) && 32 - shift < n then MergeHigh(a[k], v, n, 32 - shift) else a[k]
  }

  lemma {:induction false} MergedWindowBit(a: seq<Byte>, b: seq<Byte>, e: Endian, n: nat, v: Word, shift: nat, q: nat,
                                           w: Word, p: nat)
    requires 1 <= n <= 32 && shift < 8 && q + 4 <= |a| == |b|
    requires Merged(a, b, e, n, v, shift, q, w)
    requires forall i :: n <= i < 32 ==> !v[i]
    requires q <= p / 8 < q + 4
    ensures p < 8 * |a|
    ensures var j := WindowIndex(e, q, p);
            BitAt(b, p) == if shift <= j < shift + n then v[j - shift] else BitAt(a, p)
  {
    var i := if e.Big? then q + 3 - p / 8 else p / 8 - q;
    assert Place(e, q, i) == p / 8;
    assert ByteOf(w, i) == a[p / 8] && ByteOf(Merge(w, v, n, shift), i) == b[p / 8];
    assert a[p / 8][p % 8] == w[8 * i + p % 8];
    assert b[p / 8][p % 8] == Merge(w, v, n, shift)[8 * i + p % 8];
    MergeBits(w, a[p / 8], v, n, shift);
  }

  lemma {:induction false} MergedFifthBit(a: seq<Byte>, b: seq<Byte>, e: Endian, n: nat, v: Word, shift: nat, q: nat,
                                          w: Word, p: nat)
    requires 1 <= n <= 32 && shift < 8 && q + 4 <= |a| == |b|
    requires Merged(a, b, e, n, v, shift, q, w)
    requires forall i :: n <= i < 32 ==> !v[i]
    requires p / 8 == Fifth(e, q) < |a|
    ensures var j := WindowIndex(e, q, p);
            BitAt(b, p) == if shift <= j < shift + n then v[j - shift] else BitAt(a, p)
  {
    MergeBits(w, a[p / 8], v, n, shift);
  }

  // Which bit of the 40-bit window buffer bit p is.
  function WindowIndex(e: Endian, q: nat, p: nat): int {
    8 * (if e.Big? then q + 3 - p / 8 else p / 8 - q) + p % 8
  }

  lemma {:induction false} PackedBit(a: seq<Byte>, b: seq<Byte>, e: Endian, pos: nat, n: nat, start: nat, val: Word,
                                     v: Word, w: Word, q: nat, p: nat)
    requires 1 <= n <= 32 && !e.Undefined? && p < 8 * |a|
    requires q == WindowStart(e, pos, n, start) && q + 4 <= |a| == |b|
    requires forall i :: 0 <= i < 32 ==> v[i] == (i < n && val[i])
    requires Merged(a, b, e, n, v, LsbIndex(e, pos, n) % 8, q, w)
    ensures BitAt(b, p) == PackBit(a, e, 8 * start + pos, n, val, p)
  {
    hide LsbIndex, WindowStart, Merge, MergeHigh;
    var shift := LsbIndex(e, pos, n) % 8;
    if q <= p / 8 < q + 4 {
      MergedWindowBit(a, b, e, n, v, shift, q, w, p);
      WindowBit(e, pos, n, start, q, p, WindowIndex(e, q, p));
    } else if p / 8 == Fifth(e, q) {
      MergedFifthBit(a, b, e, n, v, shift, q, w, p);
      WindowBit(e, pos, n, start, q, p, WindowIndex(e, q, p));
    } else {
      OutsideWindow(e, pos, n, start, q, p);
    }
  }

  // A buffer whose window and fifth byte were merged is the packed buffer.
  lemma {:induction false} PackedByWindow(a: seq<Byte>, b: seq<Byte>, data: Data, pos: nat, start: nat, raw: Word,
                                          w: Word, q: nat)
    requires data.Valid() && !data.endian.Undefined?
    requires q == WindowStart(data.endian, pos, data.bits, start) && q + 4 <= |a| == |b|
    requires Merged(a, b, data.endian, data.bits, And(DataVal(data.dataType, raw), Mask(data.bits)),
                    LsbIndex(data.endian, pos, data.bits) % 8, q, w)
    ensures b == Pack(a, data.endian, 8 * start + pos, data.bits, DataVal(data.dataType, raw))
  {
    var val := DataVal(data.dataType, raw);
    MaskBits(val, data.bits);
    var packed := Pack(a, data.endian, 8 * start + pos, data.bits, val);
    forall p | 0 <= p < 8 * |a| ensures BitAt(b, p) == BitAt(packed, p) {
      PackBits(a, data.endian, 8 * start + pos, data.bits, val, p);
      PackedBit(a, b, data.endian, pos, data.bits, start, val, And(val, Mask(data.bits)), w, q, p);
    }
    SameBits(b, packed);
  }

  lemma {:induction false} FlipShift(start: nat, pos: nat)
    ensures Flip(8 * start + pos) == 8 * start + Flip(pos)
  {
    assert (8 * start + pos) / 8 == start + pos / 8;
  }

  // Bit j of the shifted window is bit j - shift of the signal.
  lemma {:induction false} WindowBit(e: Endian, pos: nat, n: nat, start: nat, q: nat, p: nat, j: nat)
    requires !e.Undefined? && 1 <= n <= 32
    requires q == WindowStart(e, pos, n, start)
    requires j < 40 && p / 8 == Place(e, q, j / 8) && p % 8 == j % 8
    ensures var shift := LsbIndex(e, pos, n) % 8;
            (InSignal(e, 8 * start + pos, n, p) <==> shift <= j < shift + n)
            && (InSignal(e, 8 * start + pos, n, p) ==> IndexOf(e, 8 * start + pos, n, p) == j - shift)
  {
    if e.Big? {
      var x := Flip(pos) + n - 1;
      FlipShift(start, pos);
      assert p == 8 * (p / 8) + p % 8 && j == 8 * (j / 8) + j % 8 && x == 8 * (x / 8) + x % 8;
      assert p / 8 == start + x / 8 - j / 8;
      assert Flip(p) == 8 * start + x - (j - LsbIndex(e, pos, n) % 8);
    } else {
      assert p == 8 * (p / 8) + p % 8 && j == 8 * (j / 8) + j % 8 && pos == 8 * (pos / 8) + pos % 8;
      assert p == 8 * start + pos + j - pos % 8;
    }
  }

  lemma {:induction false} OutsideWindow(e: Endian, pos: nat, n: nat, start: nat, q: nat, p: nat)
    requires !e.Undefined? && 1 <= n <= 32
    requires q == WindowStart(e, pos, n, start)
    requires !(q <= p / 8 < q + 4) && p / 8 != Fifth(e, q)
    ensures !InSignal(e, 8 * start + pos, n, p)
  {
    if e.Big? {
      FlipShift(start, pos);
    }
  }

  // The signal's bits, gathered from the window and masked.
  method GatherSignal(e: Endian, pos: nat, n: nat, buf: array<Byte>, start: nat) returns (pduData: Word)
    requires 1 <= n <= 32 && !e.Undefined? && WindowInside(e, pos, n, start, buf.Length)
    ensures SignalFits(e, 8 * start + pos, n, buf.Length)
    ensures pduData == Unpack(buf[..], e, 8 * start + pos, n)
  {
    var lsbIndex := LsbIndex(e, pos, n);
    var q := WindowStart(e, pos, n, start);
    var w := LoadWindow(buf, e, q);
    var bitShift := lsbIndex % 8;
    pduData := Shr(w, bitShift);
    if 32 - bitShift < n {
      pduData := Or(pduData, Shl(Extend(buf[Fifth(e, q)]), 32 - bitShift));
    }
    MaskBits(pduData, n);
    pduData := And(pduData, Mask(n));
    UnpackedByWindow(buf[..], e, pos, n, start, w, q, pduData);
  }

  // answer: of the port's write callback, which is called with the word sent.
  method WriteSRSignal(data: Data, pos: nat, buf: array<Byte>, start: nat, answer: Word -> Ret)
    returns (inside: bool, ret: Ret, sent: Word)
    requires data.Valid()
    ensures inside <==> WindowInside(data.endian, pos, data.bits, start, buf.Length)
    ensures ret == if inside && !data.endian.Undefined? then answer(sent) else ENotOk
    ensures inside && !data.endian.Undefined? ==>
              SignalFits(data.endian, 8 * start + pos, data.bits, buf.Length)
              && sent == SignExtend(data.dataType, data.bits, Unpack(buf[..], data.endian, 8 * start + pos, data.bits))
  {
    hide Unpack;
    sent := Zero();
    if !WindowInside(data.endian, pos, data.bits, start, buf.Length) { return false, ENotOk, sent; }
    inside, ret := true, ENotOk;
    if !data.endian.Undefined? {
      sent := GatherSignal(data.endian, pos, data.bits, buf, start);
      UnpackedHighBits(buf[..], data.endian, 8 * start + pos, data.bits);
      SignBit(data.dataType, data.bits, sent);
      var signmask := Not(Shr(Mask(data.bits), 1));
      if Signed(data.dataType) && And(sent, signmask) != Zero() {
        sent := Or(sent, signmask);
      }
      ret := answer(sent);
    }
  }

  lemma {:induction false} UnpackedHighBits(buf: seq<Byte>, e: Endian, pos: nat, n: nat)
    requires 1 <= n <= 32 && SignalFits(e, pos, n, |buf|)
    ensures forall i :: n <= i < 32 ==> !Unpack(buf, e, pos, n)[i]
  {
  }

  lemma {:induction false} SignBit(t: DataType, n: nat, u: Word)
    requires 1 <= n <= 32 && forall i :: n <= i < 32 ==> !u[i]
    ensures var signmask := Not(Shr(Mask(n), 1));
            SignExtend(t, n, u) == if Signed(t) && And(u, signmask) != Zero() then Or(u, signmask) else u
  {
    var signmask := Not(Shr(Mask(n), 1));
    assert forall i :: 0 <= i < 32 ==> signmask[i] == (i >= n - 1);
    if u[n - 1] {
      assert And(u, signmask)[n - 1] && !Zero()[n - 1];
    } else {
      assert And(u, signmask) == Zero();
    }
  }

  // The shifted window, with the fifth byte above it.
  predicate Gathered(a: seq<Byte>, e: Endian, n: nat, shift: nat, q: nat, w: Word, got: Word)
    requires 1 <= n <= 32 && shift < 8 && q + 4 <= |a|
    requires 32 - shift < n ==> 0 <= Fifth(e, q) < |a|
  {
    && IsWindow(a, e, q, w)
    && forall j | 0 <= j < 32 ::
      got[j] == (j < n && if j + shift < 32 then w[j + shift] else a[Fifth(e, q)][j + shift - 32])
  }

  lemma {:induction false} UnpackedByWindow(a: seq<Byte>, e: Endian, pos: nat, n: nat, start: nat, w: Word, q: nat,
                                            got: Word)
    requires 1 <= n <= 32 && !e.Undefined?
    requires q == WindowStart(e, pos, n, start) && q + 4 <= |a|
    requires 32 - LsbIndex(e, pos, n) % 8 < n ==> 0 <= Fifth(e, q) < |a|
    requires Gathered(a, e, n, LsbIndex(e, pos, n) % 8, q, w, got)
    ensures SignalFits(e, 8 * start + pos, n, |a|)
    ensures got == Unpack(a, e, 8 * start + pos, n)
  {
    var at := 8 * start + pos;
    forall j | 0 <= j < n ensures BitPos(e, at, n, j) < 8 * |a| {
      GatheredBit(a, e, pos, n, start, w, q, got, j);
    }
    var u := Unpack(a, e, at, n);
    forall j | 0 <= j < 32 ensures got[j] == u[j] {
      if j < n { GatheredBit(a, e, pos, n, start, w, q, got, j); }
    }
  }

  lemma {:induction false} GatheredBit(a: seq<Byte>, e: Endian, pos: nat, n: nat, start: nat, w: Word, q: nat,
                                       got: Word, j: nat)
    requires 1 <= n <= 32 && !e.Undefined? && j < n
    requires q == WindowStart(e, pos, n, start) && q + 4 <= |a|
    requires 32 - LsbIndex(e, pos, n) % 8 < n ==> 0 <= Fifth(e, q) < |a|
    requires Gathered(a, e, n, LsbIndex(e, pos, n) % 8, q, w, got)
    ensures BitPos(e, 8 * start + pos, n, j) < 8 * |a|
    ensures BitAt(a, BitPos(e, 8 * start + pos, n, j)) == got[j]
  {
    hide BitPos, LsbIndex, WindowStart;
    var i := j + LsbIndex(e, pos, n) % 8;
    PlaceOfBit(e, pos, n, start, q, i, |a|);
    if i < 32 { WindowByteBit(a, e, q, w, i); }
  }

  // Bit i of the window is where the signal keeps its bit i - shift.
  lemma {:induction false} PlaceOfBit(e: Endian, pos: nat, n: nat, start: nat, q: nat, i: nat, len: nat)
    requires !e.Undefined? && 1 <= n <= 32 && q == WindowStart(e, pos, n, start) && q + 4 <= len
    requires LsbIndex(e, pos, n) % 8 <= i < LsbIndex(e, pos, n) % 8 + n
    requires i < 32 || 0 <= Fifth(e, q) < len
    ensures 0 <= Place(e, q, i / 8) < len
    ensures BitPos(e, 8 * start + pos, n, i - LsbIndex(e, pos, n) % 8) == 8 * Place(e, q, i / 8) + i % 8
  {
    hide LsbIndex, WindowStart, BitPos, InSignal, IndexOf;
    var p := 8 * Place(e, q, i / 8) + i % 8;
    assert p / 8 == Place(e, q, i / 8) && p % 8 == i % 8;
    WindowBit(e, pos, n, start, q, p, i);
    IndexOfInverse(e, 8 * start + pos, n, p);
  }

  lemma {:induction false} WindowByteBit(a: seq<Byte>, e: Endian, q: nat, w: Word, i: nat)
    requires i < 32 && q + 4 <= |a| && IsWindow(a, e, q, w)
    ensures a[Place(e, q, i / 8)][i % 8] == w[i]
  {
    assert ByteOf(w, i / 8) == a[Place(e, q, i / 8)];
    assert ByteOf(w, i / 8)[i % 8] == w[i];
  }

  // ---------- Round trip of numbers ----------

  // The word WriteSRSignal hands on after ReadSRSignal stored raw.
  function Delivered(t: DataType, n: nat, raw: Word): Word
    requires 1 <= n <= 32
  {
    SignExtend(t, n, And(DataVal(t, raw), Mask(n)))
  }

  lemma {:induction false} DeliveredAfterPack(buf: seq<Byte>, e: Endian, pos: nat, n: nat, t: DataType, raw: Word)
    requires 1 <= n <= 32 && SignalFits(e, pos, n, |buf|)
    ensures |Pack(buf, e, pos, n, DataVal(t, raw))| == |buf|
    ensures SignExtend(t, n, Unpack(Pack(buf, e, pos, n, DataVal(t, raw)), e, pos, n)) == Delivered(t, n, raw)
  {
    UnpackOfPack(buf, e, pos, n, DataVal(t, raw));
    MaskBits(DataVal(t, raw), n);
    assert Unpack(Pack(buf, e, pos, n, DataVal(t, raw)), e, pos, n) == And(DataVal(t, raw), Mask(n));
  }

  // The number the n low bits of raw stand for.
  function SignalValue(t: DataType, n: nat, raw: Word): int
    requires 1 <= n <= 32
  {
    if n >= Width(t) then PortValue(t, raw)
    else if Signed(t) && raw[n - 1] then Value(raw, n) - Power2(n)
    else Value(raw, n)
  }

  lemma {:induction false} DeliveredBits(t: DataType, n: nat, raw: Word)
    requires 1 <= n <= 32
    ensures var v := DataVal(t, raw);
            forall i | 0 <= i < 32 ::
              Delivered(t, n, raw)[i] == if i < n then v[i] else Signed(t) && v[n - 1]
  {
    MaskBits(DataVal(t, raw), n);
  }

  lemma {:induction false} DeliveredValue(t: DataType, n: nat, raw: Word)
    requires 1 <= n <= 32
    ensures PortValue(t, Delivered(t, n, raw)) == SignalValue(t, n, raw)
  {
    hide Delivered, Value, Power2;
    var m, d := Width(t), Delivered(t, n, raw);
    DeliveredBits(t, n, raw);
    if n >= m {
      ValueOfSameBits(d, raw, m);
    } else {
      ValueOfSameBits(d, raw, n);
      if Signed(t) && raw[n - 1] {
        ValueOfHighOnes(d, n, m);
      } else {
        ValueOfHighZeros(d, n, m);
      }
    }
  }

  lemma {:induction false} SignalValueInRange(t: DataType, n: nat, raw: Word)
    requires 1 <= n < Width(t)
    ensures Fits(t, n, SignalValue(t, n, raw))
  {
    ValueBound(raw, n);
    if raw[n - 1] { ValueAtLeast(raw, n, n - 1); } else { ValueAtMost(raw, n, n - 1); }
  }

  lemma {:induction false} FittingBits(t: DataType, n: nat, raw: Word)
    requires 1 <= n < Width(t) && Fits(t, n, PortValue(t, raw))
    ensures SignalValue(t, n, raw) == PortValue(t, raw)
  {
    var m := Width(t);
    var low := if Signed(t) then n - 1 else n;
    forall i | low <= i < m ensures raw[i] == (Signed(t) && raw[m - 1]) {
      Power2Monotone(low, i);
      if raw[i] { ValueAtLeast(raw, m, i); } else { ValueAtMost(raw, m, i); }
      ValueBound(raw, m);
    }
    if Signed(t) && raw[m - 1] {
      ValueOfHighOnes(raw, n, m);
    } else {
      ValueOfHighZeros(raw, n, m);
    }
  }

  // The value that comes back is the packed one exactly when the signal is wide enough
  // for it; a signal narrower than needed delivers its low bits, sign-extended.
  lemma {:induction false} RoundTrip(buf: seq<Byte>, e: Endian, pos: nat, n: nat, t: DataType, raw: Word)
    requires 1 <= n <= 32 && SignalFits(e, pos, n, |buf|)
    ensures |Pack(buf, e, pos, n, DataVal(t, raw))| == |buf|
    ensures var got := PortValue(t, SignExtend(t, n, Unpack(Pack(buf, e, pos, n, DataVal(t, raw)), e, pos, n)));
            got == SignalValue(t, n, raw) && (got == PortValue(t, raw) <==> Fits(t, n, PortValue(t, raw)))
  {
    DeliveredAfterPack(buf, e, pos, n, t, raw);
    DeliveredValue(t, n, raw);
    if n < Width(t) {
      SignalValueInRange(t, n, raw);
      if Fits(t, n, PortValue(t, raw)) { FittingBits(t, n, raw); }
    }
  }

  // ---------- Several signals in one buffer ----------

  datatype Signal = Signal(endian: Endian, pos: nat, bits: nat, val: Word) {
    predicate Covers(p: nat) { InSignal(endian, pos, bits, p) }
    ghost predicate Valid(len: nat) { 1 <= bits <= 32 && SignalFits(endian, pos, bits, len) }
  }

  ghost predicate Disjoint(a: Signal, b: Signal) {
    forall p: nat :: !(a.Covers(p) && b.Covers(p))
  }

  ghost predicate Layout(signals: seq<Signal>, len: nat) {
    && (forall i | 0 <= i < |signals| :: signals[i].Valid(len))
    && forall i, j | 0 <= i < j < |signals| :: Disjoint(signals[i], signals[j])
  }

  function PackAll(buf: seq<Byte>, signals: seq<Signal>): (r: seq<Byte>)
    requires forall i | 0 <= i < |signals| :: signals[i].bits <= 32
    ensures |r| == |buf|
  {
    if signals == [] then buf
    else
      var last := signals[|signals| - 1];
      Pack(PackAll(buf, signals[..|signals| - 1]), last.endian, last.pos, last.bits, last.val)
  }

  // Every bit of the result: the bit of the one signal that covers it, else unchanged.
  lemma {:induction false} PackAllBits(buf: seq<Byte>, signals: seq<Signal>, p: nat)
    requires Layout(signals, |buf|) && p < 8 * |buf|
    ensures forall i | 0 <= i < |signals| && signals[i].Covers(p) ::
              BitAt(PackAll(buf, signals), p)
              == signals[i].val[IndexOf(signals[i].endian, signals[i].pos, signals[i].bits, p)]
    ensures (forall i | 0 <= i < |signals| :: !signals[i].Covers(p))
            ==> BitAt(PackAll(buf, signals), p) == BitAt(buf, p)
  {
    if signals != [] {
      var k := |signals| - 1;
      var init, last := signals[..k], signals[k];
      assert Layout(init, |buf|);
      PackAllBits(buf, init, p);
      PackBits(PackAll(buf, init), last.endian, last.pos, last.bits, last.val, p);
      if last.Covers(p) {
        forall i | 0 <= i < k ensures !signals[i].Covers(p) {
          assert Disjoint(signals[i], signals[k]);
        }
      } else {
        forall i | 0 <= i < k ensures signals[i] == init[i] {}
      }
    }
  }

  // Signals that do not overlap all decode back, whatever the order of packing.
  lemma {:induction false} AllDecodeBack(buf: seq<Byte>, signals: seq<Signal>, i: nat, j: nat)
    requires Layout(signals, |buf|) && i < |signals| && j < signals[i].bits
    ensures var s := signals[i];
            Unpack(PackAll(buf, signals), s.endian, s.pos, s.bits)[j] == s.val[j]
  {
    var s := signals[i];
    var p := BitPos(s.endian, s.pos, s.bits, j);
    BitPosInverse(s.endian, s.pos, s.bits, j);
    PackAllBits(buf, signals, p);
    assert s.Covers(p);
  }

  lemma {:induction false} OrderIrrelevant(buf: seq<Byte>, a: seq<Signal>, b: seq<Signal>)
    requires Layout(a, |buf|) && Layout(b, |buf|)
    requires forall s :: s in a <==> s in b
    ensures PackAll(buf, a) == PackAll(buf, b)
  {
    forall p | 0 <= p < 8 * |buf| ensures BitAt(PackAll(buf, a), p) == BitAt(PackAll(buf, b), p) {
      PackAllBits(buf, a, p);
      PackAllBits(buf, b, p);
      if i :| 0 <= i < |a| && a[i].Covers(p) {
        assert a[i] in b;
        var j :| 0 <= j < |b| && b[j] == a[i];
      } else {
        forall j | 0 <= j < |b| ensures !b[j].Covers(p) {
          assert b[j] in a;
        }
      }
    }
    SameBits(PackAll(buf, a), PackAll(buf, b));
  }
}
