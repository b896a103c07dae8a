/** Where a response keeps the values its sender-receiver ports gave, and the bytes its other ports
    gave. */
module ReadDidValues {
  import opened Bits
  import opened Prelude
  import opened SRSignal
  import opened ReadDid
  import opened ReadDidGrowth

  // How many callbacks the reading of a signal settles: the condition check, the length, the read.
  function CallsOf(sig: DidSignal): nat {
    (if sig.port.Synch? || sig.port.Asynch? then 1 else 0)
    + (if !sig.fixedLength && !sig.port.SenderReceiver? && sig.hasLength then 1 else 0)
    + 1
  }

  function CallsBefore(signals: seq<DidSignal>, k: nat): nat
    requires k <= |signals|
  {
    if k == 0 then 0 else CallsBefore(signals, k - 1) + CallsOf(signals[k - 1])
  }

  function FirstByte(sig: DidSignal): nat { sig.bitPosition / 8 }

  function EndByte(sig: DidSignal): nat {
    FirstByte(sig) + GetNofAffectedBytes(sig.data.endian, sig.bitPosition, sig.data.bits)
  }

  // The signal, in a data area that starts at start, unpacks to what the port stored in raw.
  predicate Carries(buf: seq<Byte>, sig: DidSignal, start: nat, raw: Word)
    requires sig.data.Valid()
  {
    var e, at, n := sig.data.endian, 8 * start + sig.bitPosition, sig.data.bits;
    && SignalFits(e, at, n, |buf|)
    && forall j | 0 <= j < n :: Unpack(buf, e, at, n)[j] == DataVal(sig.data.dataType, raw)[j]
  }

  // The bytes that reading a signal of another port may write: how many is known only if its
  // length is fixed.
  predicate Touches(sig: DidSignal, b: int) {
    FirstByte(sig) <= b && (sig.fixedLength ==> b < EndByte(sig))
  }

  predicate OnBit(sig: DidSignal, p: int) { p >= 0 && InSignal(sig.data.endian, sig.bitPosition, sig.data.bits, p) }

  // Signal b, read after signal a, leaves the bits of a alone.
  ghost predicate Apart(a: DidSignal, b: DidSignal) {
    if b.port.SenderReceiver? then forall p :: !(OnBit(a, p) && OnBit(b, p))
    else forall x | FirstByte(a) <= x < EndByte(a) :: !Touches(b, x)
  }

  ghost predicate Clear(signals: seq<DidSignal>, k: nat)
    requires k < |signals|
  {
    forall i | k < i < |signals| :: Apart(signals[k], signals[i])
  }

  // ---------- One signal ----------

  lemma {:induction false} OnBitShift(sig: DidSignal, start: nat, p: nat)
    ensures InSignal(sig.data.endian, 8 * start + sig.bitPosition, sig.data.bits, p) <==> OnBit(sig, p - 8 * start)
  {
    FlipShift(start, sig.bitPosition);
    if p >= 8 * start {
      FlipShift(start, p - 8 * start);
      assert 8 * start + (p - 8 * start) == p;
    } else {
      BytesBefore(p, start);
    }
    hide Flip;
  }

  lemma {:induction false} BytesBefore(p: nat, start: nat)
    requires p < 8 * start
    ensures Flip(p) < 8 * start
  {
  }

  lemma {:induction false} OnBitInside(sig: DidSignal, p: int)
    requires OnBit(sig, p) && sig.data.Valid()
    ensures FirstByte(sig) <= p / 8 < EndByte(sig)
  {
    AffectedBytesExact(sig.data.endian, sig.bitPosition, sig.data.bits, p / 8);
  }

  // A value stays while its bits do.
  lemma {:induction false} CarriesStays(a: seq<Byte>, b: seq<Byte>, sig: DidSignal, start: nat, raw: Word)
    requires sig.data.Valid() && Carries(a, sig, start, raw) && |b| == |a|
    requires forall p | 0 <= p < 8 * |a| && OnBit(sig, p - 8 * start) :: BitAt(b, p) == BitAt(a, p)
    ensures Carries(b, sig, start, raw)
  {
    var e, at, n := sig.data.endian, 8 * start + sig.bitPosition, sig.data.bits;
    forall j | 0 <= j < n ensures BitAt(b, BitPos(e, at, n, j)) == BitAt(a, BitPos(e, at, n, j)) {
      BitPosInverse(e, at, n, j);
      OnBitShift(sig, start, BitPos(e, at, n, j));
    }
    SameUnpacked(a, b, e, at, n);
    hide Unpack, BitPos, OnBit, BitAt, DataVal;
  }

  lemma {:induction false} SameUnpacked(a: seq<Byte>, b: seq<Byte>, e: Endian, at: nat, n: nat)
    requires n <= 32 && SignalFits(e, at, n, |a|) && |b| == |a|
    requires forall j | 0 <= j < n :: BitAt(b, BitPos(e, at, n, j)) == BitAt(a, BitPos(e, at, n, j))
    ensures Unpack(b, e, at, n) == Unpack(a, e, at, n)
  {
    hide BitAt, BitPos;
  }

  lemma {:induction false} PackCarries(st: St, sig: DidSignal, raw: Word)
    requires sig.data.Valid() && st.startPos + EndByte(sig) <= |st.buf|
    ensures Carries(PackSignal(st, sig, raw), sig, st.startPos, raw)
  {
    hide Unpack, Pack, SignalFits, DataVal, EndByte;
    InsideFits(sig, st.startPos, |st.buf|);
    UnpackOfPack(st.buf, sig.data.endian, 8 * st.startPos + sig.bitPosition, sig.data.bits,
      DataVal(sig.data.dataType, raw));
  }

  lemma {:induction false} InsideFits(sig: DidSignal, start: nat, len: nat)
    requires sig.data.Valid() && start + EndByte(sig) <= len
    ensures SignalFits(sig.data.endian, 8 * start + sig.bitPosition, sig.data.bits, len)
  {
    hide BitPos, EndByte, OnBit;
    var e, at, n := sig.data.endian, 8 * start + sig.bitPosition, sig.data.bits;
    forall j | 0 <= j < n ensures BitPos(e, at, n, j) < 8 * len {
      var p := BitPos(e, at, n, j);
      BitPosInverse(e, at, n, j);
      OnBitShift(sig, start, p);
      OnBitInside(sig, p - 8 * start);
      BitInBytes(p, start, EndByte(sig), len);
    }
  }

  lemma {:induction false} BitInBytes(p: int, start: nat, end: nat, len: nat)
    requires (p - 8 * start) / 8 < end && start + end <= len
    ensures p < 8 * len
  {
  }

  // As a number: what is decoded is the number the low bits of raw stand for.
  lemma {:induction false} CarriedDecodes(buf: seq<Byte>, sig: DidSignal, start: nat, raw: Word)
    requires sig.data.Valid() && Carries(buf, sig, start, raw)
    ensures var e, t, n := sig.data.endian, sig.data.dataType, sig.data.bits;
            PortValue(t, SignExtend(t, n, Unpack(buf, e, 8 * start + sig.bitPosition, n))) == SignalValue(t, n, raw)
  {
    var e, at, t, n := sig.data.endian, 8 * start + sig.bitPosition, sig.data.dataType, sig.data.bits;
    UnpackedHighBits(buf, e, at, n);
    MaskBits(DataVal(t, raw), n);
    DeliveredValue(t, n, raw);
    assert Unpack(buf, e, at, n) == And(DataVal(t, raw), Mask(n));
    hide Unpack, SignExtend, PortValue, SignalValue;
  }

  // How many bytes a signal has whose first callback is number at: fixed, or what its length
  // callback said.
  function LengthOf(answers: nat -> Answer, sig: DidSignal, at: nat): nat {
    if sig.port.SenderReceiver? || sig.fixedLength then
      GetNofAffectedBytes(sig.data.endian, sig.bitPosition, sig.data.bits)
    else if sig.hasLength then answers(at + CallsOf(sig) - 2).len
    else 0
  }

  // The callback that reads the data is the last one of a signal.
  function ReadAt(sig: DidSignal, at: nat): nat { at + CallsOf(sig) - 1 }

  predicate Covers(answers: nat -> Answer, sig: DidSignal, at: nat, b: int) {
    FirstByte(sig) <= b < FirstByte(sig) + LengthOf(answers, sig, at)
  }

  // len bytes were written for a signal, with this data as far as it goes, and no other.
  ghost predicate Wrote(sig: DidSignal, len: nat, data: seq<Byte>, a: St, b: St) {
    && b.startPos == a.startPos && |b.buf| == |a.buf| && a.startPos + FirstByte(sig) + len <= |a.buf|
    && b.txPos == MaxOf(a.txPos, a.startPos + FirstByte(sig) + len)
    && (forall x | 0 <= x < |a.buf| && !(FirstByte(sig) <= x - a.startPos < FirstByte(sig) + len) ::
          b.buf[x] == a.buf[x])
    && forall j | 0 <= j < len && j < |data| :: b.buf[a.startPos + FirstByte(sig) + j] == data[j]
  }

  function MaxOf(a: nat, b: nat): nat { if a < b then b else a }

  // What reading a signal that succeeds does, in the run in which every callback settles at once.
  ghost predicate Effect(answers: nat -> Answer, sig: DidSignal, a: St, b: St) {
    && b.settled == a.settled + CallsOf(sig) && b.startPos == a.startPos && b.turns == [] && b.phase.Idle?
    && |b.buf| == |a.buf|
    && if sig.port.SenderReceiver? then
         && b.buf == PackSignal(a, sig, answers(a.settled).raw)
         && b.txPos == MaxOf(a.txPos, a.startPos + EndByte(sig)) && a.startPos + EndByte(sig) <= |a.buf|
       else Wrote(sig, LengthOf(answers, sig, a.settled), answers(ReadAt(sig, a.settled)).data, a, b)
  }

  lemma {:induction false} WriteWrote(buf: seq<Byte>, at: nat, data: seq<Byte>, len: nat)
    requires at + len <= |buf|
    ensures var w := Write(buf, at, FitTo(data, len, ZeroByte()));
            && (forall x | 0 <= x < |buf| && !(at <= x < at + len) :: w[x] == buf[x])
            && forall j | 0 <= j < len && j < |data| :: w[at + j] == data[j]
  {
  }

  lemma {:induction false} FetchEffect(answers: nat -> Answer, limit: nat, sig: DidSignal, i: nat, len: nat, st: St)
    requires limit <= |st.buf| && st.turns == [] && st.phase.Idle? && sig.data.Valid()
    requires sig.port.SenderReceiver? ==> FirstByte(sig) + len == EndByte(sig)
    ensures var r := Fetch(answers, limit, sig, i, len, st);
            r.code.Positive? ==>
              && r.st.settled == st.settled + 1 && r.st.turns == [] && r.st.phase.Idle?
              && if sig.port.SenderReceiver? then Effect(answers, sig, st, r.st)
                 else Wrote(sig, len, answers(st.settled).data, st, r.st)
  {
    if st.startPos + FirstByte(sig) + len <= limit {
      WriteWrote(st.buf, st.startPos + FirstByte(sig), answers(st.settled).data, len);
    }
    hide PackSignal, FitTo, Write, WindowInside, EndByte;
  }

  lemma {:induction false} ReadPhaseEffect(answers: nat -> Answer, limit: nat, sig: DidSignal, i: nat, st: St)
    requires limit <= |st.buf| && st.turns == [] && st.phase.Idle? && sig.data.Valid()
    requires sig.port.Synch? || sig.port.Asynch? ==> st.settled >= 1
    ensures var r := ReadPhase(answers, limit, sig, i, st);
            var checks := if sig.port.Synch? || sig.port.Asynch? then 1 else 0;
            r.code.Positive? ==>
              && r.st.settled == st.settled + CallsOf(sig) - checks && r.st.turns == [] && r.st.phase.Idle?
              && if sig.port.SenderReceiver? then Effect(answers, sig, st, r.st)
                 else Wrote(sig, LengthOf(answers, sig, st.settled - checks), answers(r.st.settled - 1).data, st, r.st)
  {
    hide Fetch, PackSignal, GetNofAffectedBytes;
    FetchEffect(answers, limit, sig, i, GetNofAffectedBytes(sig.data.endian, sig.bitPosition, sig.data.bits), st);
    if !sig.fixedLength && !sig.port.SenderReceiver? {
      FetchEffect(answers, limit, sig, i, 0, st);
      FetchEffect(answers, limit, sig, i, answers(st.settled).len, Called(st));
    }
  }

  lemma {:induction false} StepEffect(answers: nat -> Answer, limit: nat, sig: DidSignal, i: nat, st: St)
    requires limit <= |st.buf| && st.turns == [] && st.phase.Idle? && sig.data.Valid()
    ensures var r := SignalStep(answers, limit, sig, i, st); r.code.Positive? ==> Effect(answers, sig, st, r.st)
  {
    hide ReadPhase, PackSignal, LengthOf;
    if sig.port.EcuSignal? || sig.port.SenderReceiver? { ReadPhaseEffect(answers, limit, sig, i, st); }
    ReadPhaseEffect(answers, limit, sig, i, Settled(st).(phase := Idle));
    ReadPhaseEffect(answers, limit, sig, i, Called(st));
  }

  // Where a signal has no bytes, it leaves the buffer alone.
  lemma {:induction false} UncoveredStays(answers: nat -> Answer, sig: DidSignal, a: St, b: St, x: nat)
    requires sig.data.Valid() && Effect(answers, sig, a, b) && a.startPos + x < |a.buf|
    requires !Covers(answers, sig, a.settled, x)
    ensures b.buf[a.startPos + x] == a.buf[a.startPos + x]
  {
    if sig.port.SenderReceiver? {
      var at := 8 * a.startPos + sig.bitPosition;
      assert at / 8 == a.startPos + FirstByte(sig);
      AffectedShift(sig, a.startPos);
      PackTouchesAffectedBytes(a.buf, sig.data.endian, at, sig.data.bits,
                               DataVal(sig.data.dataType, answers(a.settled).raw), a.startPos + x);
    }
  }

  lemma {:induction false} AffectedShift(sig: DidSignal, start: nat)
    ensures GetNofAffectedBytes(sig.data.endian, 8 * start + sig.bitPosition, sig.data.bits)
         == GetNofAffectedBytes(sig.data.endian, sig.bitPosition, sig.data.bits)
  {
    assert (8 * start + sig.bitPosition) % 8 == sig.bitPosition % 8;
  }

  lemma {:induction false} CoveredMayTouch(answers: nat -> Answer, sig: DidSignal, at: nat, b: int)
    requires !sig.port.SenderReceiver?
    ensures Covers(answers, sig, at, b) ==> Touches(sig, b)
  {
  }

  // A later signal apart from it keeps the value.
  lemma {:induction false} ApartKeeps(answers: nat -> Answer, sig: DidSignal, other: DidSignal, a: St, b: St, raw: Word)
    requires sig.data.Valid() && other.data.Valid() && Carries(a.buf, sig, a.startPos, raw)
    requires Effect(answers, other, a, b) && Apart(sig, other)
    ensures Carries(b.buf, sig, a.startPos, raw)
  {
    hide Carries, CallsOf;
    forall p | 0 <= p < 8 * |a.buf| && OnBit(sig, p - 8 * a.startPos) ensures BitAt(b.buf, p) == BitAt(a.buf, p) {
      if other.port.SenderReceiver? {
        OnBitShift(other, a.startPos, p);
        PackBits(a.buf, other.data.endian, 8 * a.startPos + other.bitPosition, other.data.bits,
                 DataVal(other.data.dataType, answers(a.settled).raw), p);
      } else {
        OnBitInside(sig, p - 8 * a.startPos);
        assert (p - 8 * a.startPos) / 8 == p / 8 - a.startPos;
        CoveredMayTouch(answers, other, a.settled, p / 8 - a.startPos);
      }
    }
    CarriesStays(a.buf, b.buf, sig, a.startPos, raw);
  }

  // ---------- All signals of a DID ----------

  // The first n signals: each sender-receiver one that no later signal overlaps has its value in
  // the response, in front of the write position to.
  ghost predicate SignalsCarried(answers: nat -> Answer, signals: seq<DidSignal>, buf: seq<Byte>, start: nat, base: nat,
                                 n: nat, to: nat)
    requires n <= |signals| && forall k | 0 <= k < |signals| :: signals[k].data.Valid()
  {
    forall k | 0 <= k < n && signals[k].port.SenderReceiver? && Clear(signals, k) ::
      && start + EndByte(signals[k]) <= to
      && Carries(buf, signals[k], start, answers(base + CallsBefore(signals, k)).raw)
  }

  lemma {:induction false} OneMoreCarried(answers: nat -> Answer, signals: seq<DidSignal>, i: nat, a: St, b: St,
                                          base: nat)
    requires i < |signals| && forall k | 0 <= k < |signals| :: signals[k].data.Valid()
    requires a.settled == base + CallsBefore(signals, i) && Effect(answers, signals[i], a, b)
    requires SignalsCarried(answers, signals, a.buf, a.startPos, base, i, a.txPos)
    ensures b.settled == base + CallsBefore(signals, i + 1)
    ensures SignalsCarried(answers, signals, b.buf, b.startPos, base, i + 1, b.txPos)
  {
    hide Carries, Apart, CallsOf, EndByte, PackSignal;
    forall k | 0 <= k < i + 1 && signals[k].port.SenderReceiver? && Clear(signals, k)
      ensures b.startPos + EndByte(signals[k]) <= b.txPos
      ensures Carries(b.buf, signals[k], b.startPos, answers(base + CallsBefore(signals, k)).raw)
    {
      if k < i {
        ApartKeeps(answers, signals[k], signals[i], a, b, answers(base + CallsBefore(signals, k)).raw);
      } else {
        PackCarries(a, signals[i], answers(a.settled).raw);
      }
    }
  }

  // The callbacks of signal k start at this number.
  function CallAt(signals: seq<DidSignal>, base: nat, k: nat): nat
    requires k <= |signals|
  {
    base + CallsBefore(signals, k)
  }

  function EndOf(answers: nat -> Answer, signals: seq<DidSignal>, start: nat, base: nat, k: nat): nat
    requires k < |signals|
  {
    start + FirstByte(signals[k]) + LengthOf(answers, signals[k], CallAt(signals, base, k))
  }

  // No signal from number k up to n has byte b of the data area.
  ghost predicate Free(answers: nat -> Answer, signals: seq<DidSignal>, base: nat, k: nat, n: nat, b: int)
    requires n <= |signals|
  {
    forall i | k <= i < n :: !Covers(answers, signals[i], CallAt(signals, base, i), b)
  }

  // If signal k has a byte j that no later signal has, it is the one its read callback gave.
  ghost predicate ByteThere(answers: nat -> Answer, signals: seq<DidSignal>, buf: seq<Byte>, start: nat, base: nat,
                            n: nat, k: nat, j: nat)
    requires k < n <= |signals|
  {
    var x, given := FirstByte(signals[k]) + j, answers(ReadAt(signals[k], CallAt(signals, base, k))).data;
    && j < LengthOf(answers, signals[k], CallAt(signals, base, k)) && j < |given|
    && Free(answers, signals, base, k + 1, n, x) ==>
         start + x < |buf| && buf[start + x] == given[j]
  }

  // Every byte that the read callback of another port gave, and no later signal has, is in the
  // response.
  ghost predicate BytesCarried(answers: nat -> Answer, signals: seq<DidSignal>, buf: seq<Byte>, start: nat, base: nat,
                               n: nat)
    requires n <= |signals|
  {
    forall k: nat, j: nat | k < n && !signals[k].port.SenderReceiver? ::
      ByteThere(answers, signals, buf, start, base, n, k, j)
  }

  // And every byte of the data area that no signal has is zero, up to a position.
  ghost predicate GapsZero(answers: nat -> Answer, signals: seq<DidSignal>, size: nat, buf: seq<Byte>, start: nat,
                           base: nat, n: nat, upto: nat)
    requires n <= |signals|
  {
    forall b | 0 <= b < size && start + b < upto && start + b < |buf| && Free(answers, signals, base, 0, n, b) ::
      buf[start + b] == ZeroByte()
  }

  // The data ends where the last of the signals ends.
  ghost predicate EndsAt(answers: nat -> Answer, signals: seq<DidSignal>, start: nat, base: nat, n: nat, to: nat)
    requires n <= |signals|
  {
    && start <= to && (forall k | 0 <= k < n :: EndOf(answers, signals, start, base, k) <= to)
    && (to == start || exists k :: 0 <= k < n && EndOf(answers, signals, start, base, k) == to)
  }

  // The data area of a DID after its first n signals: values, bytes, zeros, and its end.
  ghost predicate Filled(answers: nat -> Answer, signals: seq<DidSignal>, size: nat, buf: seq<Byte>, start: nat,
                         base: nat, n: nat, to: nat, upto: nat)
    requires n <= |signals| && forall k | 0 <= k < |signals| :: signals[k].data.Valid()
  {
    && SignalsCarried(answers, signals, buf, start, base, n, to)
    && BytesCarried(answers, signals, buf, start, base, n)
    && GapsZero(answers, signals, size, buf, start, base, n, upto)
    && EndsAt(answers, signals, start, base, n, to)
  }

  lemma {:induction false} OneMoreByte(answers: nat -> Answer, signals: seq<DidSignal>, i: nat, a: St, b: St, base: nat)
    requires i < |signals| && signals[i].data.Valid() && a.settled == CallAt(signals, base, i)
    requires Effect(answers, signals[i], a, b) && BytesCarried(answers, signals, a.buf, a.startPos, base, i)
    ensures BytesCarried(answers, signals, b.buf, b.startPos, base, i + 1)
  {
    hide CallsOf, LengthOf, PackSignal, CallAt, Covers;
    var n := i + 1;
    forall k: nat, j: nat | k < n && !signals[k].port.SenderReceiver?
      ensures ByteThere(answers, signals, b.buf, b.startPos, base, n, k, j)
    {
      var x := FirstByte(signals[k]) + j;
      if k < i && Free(answers, signals, base, k + 1, n, x) {
        assert ByteThere(answers, signals, a.buf, a.startPos, base, i, k, j);
        assert Free(answers, signals, base, k + 1, i, x);
        assert !Covers(answers, signals[i], CallAt(signals, base, i), x);
        if a.startPos + x < |a.buf| { UncoveredStays(answers, signals[i], a, b, x); }
      }
    }
  }

  lemma {:induction false} OneMoreGap(answers: nat -> Answer, signals: seq<DidSignal>, size: nat, i: nat, a: St, b: St,
                                      base: nat, upto: nat)
    requires i < |signals| && signals[i].data.Valid() && a.settled == CallAt(signals, base, i)
    requires Effect(answers, signals[i], a, b) && GapsZero(answers, signals, size, a.buf, a.startPos, base, i, upto)
    ensures GapsZero(answers, signals, size, b.buf, b.startPos, base, i + 1, upto)
  {
    hide CallsOf, LengthOf, PackSignal, CallAt, Wrote, Covers;
    var n := i + 1;
    forall x | 0 <= x < size && b.startPos + x < upto && b.startPos + x < |b.buf|
               && Free(answers, signals, base, 0, n, x)
      ensures b.buf[b.startPos + x] == ZeroByte()
    {
      assert Free(answers, signals, base, 0, i, x);
      assert !Covers(answers, signals[i], CallAt(signals, base, i), x);
      UncoveredStays(answers, signals[i], a, b, x);
    }
  }

  lemma {:induction false} OneMoreEnd(answers: nat -> Answer, signals: seq<DidSignal>, i: nat, a: St, b: St, base: nat)
    requires i < |signals| && a.settled == CallAt(signals, base, i) && Effect(answers, signals[i], a, b)
    requires EndsAt(answers, signals, a.startPos, base, i, a.txPos)
    ensures EndsAt(answers, signals, b.startPos, base, i + 1, b.txPos)
  {
    assert b.txPos == MaxOf(a.txPos, EndOf(answers, signals, a.startPos, base, i));
    hide CallsOf, LengthOf, PackSignal, CallAt, EndOf;
  }

  lemma {:induction false} SignalsCarry(answers: nat -> Answer, limit: nat, did: Did, i: nat, st: St, base: nat,
                                        upto: nat)
    requires limit <= |st.buf| && st.turns == [] && st.phase.Idle? && i <= |did.signals| && SignalsOk(did)
    requires st.settled == CallAt(did.signals, base, i)
    requires Filled(answers, did.signals, did.size, st.buf, st.startPos, base, i, st.txPos, upto)
    ensures var r := ReadSignals(answers, limit, did.signals, i, st);
            r.code.Positive? ==>
              && r.st.settled == CallAt(did.signals, base, |did.signals|) && r.st.turns == []
              && Filled(answers, did.signals, did.size, r.st.buf, st.startPos, base, |did.signals|, r.st.txPos, upto)
    decreases |did.signals| - i
  {
    hide SignalStep, SignalsCarried, BytesCarried, GapsZero, EndsAt;
    if i < |did.signals| {
      var r := SignalStep(answers, limit, did.signals[i], i, st);
      if r.code.Positive? {
        StepEffect(answers, limit, did.signals[i], i, st);
        OneMoreCarried(answers, did.signals, i, st, r.st, base);
        OneMoreByte(answers, did.signals, i, st, r.st, base);
        OneMoreGap(answers, did.signals, did.size, i, st, r.st, base, upto);
        OneMoreEnd(answers, did.signals, i, st, r.st, base);
        hide Effect, CallsBefore;
        SignalsCarry(answers, limit, did, i + 1, r.st, base, upto);
      }
    }
  }

  // ---------- All visited DIDs ----------

  function CallsOfNode(did: Did): nat { if did.onlyRefs then 0 else CallsBefore(did.signals, |did.signals|) }

  function CallsOfNodes(nodes: seq<Did>, n: nat): nat
    requires n <= |nodes|
  {
    if n == 0 then 0 else CallsOfNodes(nodes, n - 1) + CallsOfNode(nodes[n - 1])
  }

  // The DID whose identifier is at position p, with its data behind up to end.
  ghost predicate NodeCarries(answers: nat -> Answer, buf: seq<Byte>, did: Did, p: nat, base: nat, end: nat)
    requires SignalsOk(did)
  {
    if did.onlyRefs then end == p + 2
    else Filled(answers, did.signals, did.size, buf, p + 2, base, |did.signals|, end, end)
  }

  // One byte of it, spelt out: byte j of the data that signal k was given. Its callbacks are numbered
  // from at on, and no later signal has the byte.
  lemma {:induction false} DataByte(answers: nat -> Answer, buf: seq<Byte>, did: Did, p: nat, base: nat, end: nat,
                                    k: nat, j: nat, at: nat)
    requires SignalsOk(did) && NodeCarries(answers, buf, did, p, base, end) && !did.onlyRefs
    requires k < |did.signals| && !did.signals[k].port.SenderReceiver? && at == base + CallsBefore(did.signals, k)
    requires var sig := did.signals[k]; j < LengthOf(answers, sig, at) && j < |answers(at + CallsOf(sig) - 1).data|
    requires Free(answers, did.signals, base, k + 1, |did.signals|, did.signals[k].bitPosition / 8 + j)
    ensures var sig := did.signals[k];
            var x := p + 2 + sig.bitPosition / 8 + j;
            x < end && x < |buf| && buf[x] == answers(at + CallsOf(sig) - 1).data[j]
  {
    hide CallsOf, LengthOf, CallsBefore, Free, SignalsCarried, GapsZero;
    assert EndOf(answers, did.signals, p + 2, base, k) <= end;
    assert ByteThere(answers, did.signals, buf, p + 2, base, |did.signals|, k, j);
  }

  lemma {:induction false} NodeCarriesItsValues(answers: nat -> Answer, limit: nat, did: Did, st: St)
    requires limit <= |st.buf| && SignalsOk(did) && st.phase.Idle? && st.turns == [] && st.signalIndex == 0
    ensures var r := Node(answers, limit, did, 0, st);
            r.code.Positive? ==>
              && r.st.settled == st.settled + CallsOfNode(did) && r.st.turns == [] && r.st.signalIndex == 0
              && NodeCarries(answers, r.st.buf, did, st.txPos, st.settled, r.st.txPos)
  {
    if !did.onlyRefs && st.txPos + did.size + 2 <= limit {
      NothingFilled(answers, limit, did, st);
      SignalsCarry(answers, limit, did, 0, Begin(did, st), st.settled, st.txPos + 2 + did.size);
    }
    hide ReadSignals, SignalsCarried, BytesCarried, EndsAt, Free, IdBytes;
  }

  lemma {:induction false} NothingFilled(answers: nat -> Answer, limit: nat, did: Did, st: St)
    requires SignalsOk(did) && st.txPos + did.size + 2 <= limit <= |st.buf|
    ensures var begun := Begin(did, st);
            && Filled(answers, did.signals, did.size, begun.buf, begun.startPos, st.settled, 0, begun.txPos,
                      begun.startPos + did.size)
            && CallAt(did.signals, st.settled, 0) == st.settled
  {
    var begun := Begin(did, st);
    assert begun.buf[begun.startPos..begun.startPos + did.size] == ZeroBytes(did.size);
    forall b | 0 <= b < did.size && Free(answers, did.signals, st.settled, 0, 0, b)
      ensures begun.buf[begun.startPos + b] == ZeroByte()
    {
      assert begun.buf[begun.startPos + b] == begun.buf[begun.startPos..begun.startPos + did.size][b];
    }
  }

  // Where the DID at n ends: at the next identifier, or with the response.
  function NextOf(ps: seq<nat>, n: nat, to: nat): nat
    requires n < |ps|
  {
    if n + 1 < |ps| then ps[n + 1] else to
  }

  // The visited DIDs fill the response from one position to the other: identifiers at ps, each with
  // its data behind, without a gap between them.
  ghost predicate Valued(answers: nat -> Answer, buf: seq<Byte>, ps: seq<nat>, nodes: seq<Did>, base: nat, from: nat,
                         to: nat)
    requires NodesOk(nodes)
  {
    && |ps| == |nodes| && from == (if ps == [] then to else ps[0])
    && forall n | 0 <= n < |nodes| ::
         && ps[n] + 2 <= to
         && NodeCarries(answers, buf, nodes[n], ps[n], base + CallsOfNodes(nodes, n), NextOf(ps, n, to))
  }

  lemma {:induction false} FrontKeepsSignals(answers: nat -> Answer, signals: seq<DidSignal>, size: nat, a: seq<Byte>,
                                             b: seq<Byte>, start: nat, base: nat, to: nat)
    requires forall k | 0 <= k < |signals| :: signals[k].data.Valid()
    requires Filled(answers, signals, size, a, start, base, |signals|, to, to)
    requires to <= |a| == |b| && b[..to] == a[..to]
    ensures Filled(answers, signals, size, b, start, base, |signals|, to, to)
  {
    assert forall x | 0 <= x < to :: b[x] == b[..to][x] == a[x];
    hide Clear, CallsBefore, Carries, Free, LengthOf, CallsOf;
    FrontKeepsBytes(answers, signals, a, b, start, base, to);
    forall k | 0 <= k < |signals| && signals[k].port.SenderReceiver? && Clear(signals, k)
      ensures Carries(b, signals[k], start, answers(base + CallsBefore(signals, k)).raw)
    {
      FrontKeepsValue(a, b, signals[k], start, answers(base + CallsBefore(signals, k)).raw, to);
    }
  }

  lemma {:induction false} FrontKeepsBytes(answers: nat -> Answer, signals: seq<DidSignal>, a: seq<Byte>, b: seq<Byte>,
                                           start: nat, base: nat, to: nat)
    requires BytesCarried(answers, signals, a, start, base, |signals|)
    requires EndsAt(answers, signals, start, base, |signals|, to)
    requires to <= |a| == |b| && forall x | 0 <= x < to :: b[x] == a[x]
    ensures BytesCarried(answers, signals, b, start, base, |signals|)
  {
    hide CallsBefore, Free, LengthOf, CallsOf, CallAt;
    forall k: nat, j: nat | k < |signals| && !signals[k].port.SenderReceiver?
      ensures ByteThere(answers, signals, b, start, base, |signals|, k, j)
    {
      assert ByteThere(answers, signals, a, start, base, |signals|, k, j);
      assert EndOf(answers, signals, start, base, k) <= to;
    }
  }

  lemma {:induction false} FrontKeepsValue(a: seq<Byte>, b: seq<Byte>, sig: DidSignal, start: nat, raw: Word, to: nat)
    requires sig.data.Valid() && Carries(a, sig, start, raw) && start + EndByte(sig) <= to <= |a| == |b|
             && b[..to] == a[..to]
    ensures Carries(b, sig, start, raw)
  {
    hide Carries, EndByte;
    forall p | 0 <= p < 8 * |a| && OnBit(sig, p - 8 * start) ensures BitAt(b, p) == BitAt(a, p) {
      OnBitInside(sig, p - 8 * start);
      assert (p - 8 * start) / 8 == p / 8 - start;
      assert b[p / 8] == b[..to][p / 8] && a[p / 8] == a[..to][p / 8];
    }
    CarriesStays(a, b, sig, start, raw);
  }

  // Values stay where they are while the response grows behind them.
  lemma {:induction false} ValuedStays(answers: nat -> Answer, a: seq<Byte>, b: seq<Byte>, ps: seq<nat>,
                                       nodes: seq<Did>, base: nat, from: nat, to: nat)
    requires NodesOk(nodes) && Valued(answers, a, ps, nodes, base, from, to)
    requires to <= |a| == |b| && b[..to] == a[..to]
    ensures Valued(answers, b, ps, nodes, base, from, to)
  {
    hide NodeCarries, CallsOfNodes, SignalsOk;
    forall n | 0 <= n < |nodes|
      ensures NodeCarries(answers, b, nodes[n], ps[n], base + CallsOfNodes(nodes, n), NextOf(ps, n, to))
    {
      var end := NextOf(ps, n, to);
      assert end <= to by { if n + 1 < |ps| { assert ps[n + 1] + 2 <= to; } }
      assert b[..end] == b[..to][..end] && a[..end] == a[..to][..end];
      NodeStays(answers, a, b, nodes[n], ps[n], base + CallsOfNodes(nodes, n), end);
    }
  }

  lemma {:induction false} NodeStays(answers: nat -> Answer, a: seq<Byte>, b: seq<Byte>, did: Did, p: nat, base: nat,
                                     end: nat)
    requires SignalsOk(did) && NodeCarries(answers, a, did, p, base, end)
    requires end <= |a| == |b| && b[..end] == a[..end]
    ensures NodeCarries(answers, b, did, p, base, end)
  {
    hide Filled;
    if !did.onlyRefs { FrontKeepsSignals(answers, did.signals, did.size, a, b, p + 2, base, end); }
  }

  lemma {:induction false} ValuedJoins(answers: nat -> Answer, buf: seq<Byte>, ps: seq<nat>, qs: seq<nat>,
                                       nodes: seq<Did>, more: seq<Did>, base: nat, from: nat, mid: nat, to: nat)
    requires NodesOk(nodes) && NodesOk(more) && NodesOk(nodes + more)
    requires Valued(answers, buf, ps, nodes, base, from, mid)
    requires Valued(answers, buf, qs, more, base + CallsOfNodes(nodes, |nodes|), mid, to)
    ensures Valued(answers, buf, ps + qs, nodes + more, base, from, to)
    ensures CallsOfNodes(nodes + more, |nodes + more|) == CallsOfNodes(nodes, |nodes|) + CallsOfNodes(more, |more|)
  {
    hide NodeCarries, CallsOfNodes, SignalsOk;
    forall n | 0 <= n < |nodes + more|
      ensures (ps + qs)[n] + 2 <= to
      ensures NodeCarries(answers, buf, (nodes + more)[n], (ps + qs)[n], base + CallsOfNodes(nodes + more, n),
                          NextOf(ps + qs, n, to))
    {
      CallsJoin(nodes, more, n);
      if n < |nodes| {
        JoinedFront(answers, buf, ps, qs, nodes, more, base, from, mid, to, n);
      } else {
        var m := n - |nodes|;
        assert (nodes + more)[n] == more[m] && (ps + qs)[n] == qs[m];
        var calls := CallsOfNodes(nodes, |nodes|) + CallsOfNodes(more, m);
        assert NodeCarries(answers, buf, more[m], qs[m], base + calls, NextOf(qs, m, to));
        assert base + CallsOfNodes(nodes + more, n) == base + CallsOfNodes(nodes, |nodes|) + CallsOfNodes(more, m) by {
          if m == 0 { NoCalls(more); }
        }
      }
    }
    CallsJoin(nodes, more, |nodes + more|);
    if |more| == 0 { NoCalls(more); }
  }

  lemma {:induction false} NoCalls(nodes: seq<Did>)
    ensures CallsOfNodes(nodes, 0) == 0
  {
  }

  lemma {:induction false} JoinedFront(answers: nat -> Answer, buf: seq<Byte>, ps: seq<nat>, qs: seq<nat>,
                                       nodes: seq<Did>, more: seq<Did>, base: nat, from: nat, mid: nat, to: nat, n: nat)
    requires NodesOk(nodes) && NodesOk(nodes + more) && Valued(answers, buf, ps, nodes, base, from, mid) && n < |nodes|
    requires mid == (if qs == [] then to else qs[0]) && (qs != [] ==> qs[0] + 2 <= to)
    ensures |ps| == |nodes| && ps[n] + 2 <= to
    ensures NodeCarries(answers, buf, (nodes + more)[n], (ps + qs)[n], base + CallsOfNodes(nodes, n),
                        NextOf(ps + qs, n, to))
  {
    hide NodeCarries, CallsOfNodes, SignalsOk;
    assert (nodes + more)[n] == nodes[n] && (ps + qs)[n] == ps[n];
    assert NextOf(ps + qs, n, to) == NextOf(ps, n, mid);
  }

  lemma {:induction false} CallsJoin(nodes: seq<Did>, more: seq<Did>, n: nat)
    requires n <= |nodes + more|
    ensures CallsOfNodes(nodes + more, n)
         == if n <= |nodes| then CallsOfNodes(nodes, n)
            else CallsOfNodes(nodes, |nodes|) + CallsOfNodes(more, n - |nodes|)
  {
    hide CallsOfNode;
    if n > 0 { CallsJoin(nodes, more, n - 1); }
  }
}
