/** Reading a DID only writes behind the start of its data area, and the response only grows. */
module ReadDidGrowth {
  import opened Bits
  import opened Prelude
  import opened SRSignal
  import opened ReadDid

  ghost predicate SignalsOk(did: Did) { forall i | 0 <= i < |did.signals| :: did.signals[i].data.Valid() }

  ghost predicate NodesOk(nodes: seq<Did>) { forall i | 0 <= i < |nodes| :: SignalsOk(nodes[i]) }

  lemma {:induction false} PreorderOk(did: Did)
    requires ValidDid(did)
    ensures NodesOk(Preorder(did))
    decreases did, |did.refs| + 1
  {
    RefsOk(did, |did.refs|);
  }

  lemma {:induction false} RefsOk(did: Did, n: nat)
    requires ValidDid(did) && n <= |did.refs|
    ensures NodesOk(PreorderOfRefs(did, n))
    decreases did, n
  {
    if n > 0 {
      RefsOk(did, n - 1);
      PreorderOk(did.refs[n - 1]);
    }
  }

  // The first n bytes are as before, and the write position has not moved back, nor past the
  // limit.
  predicate Grew(a: St, b: St, n: nat, limit: nat) {
    && |b.buf| == |a.buf| && n <= |a.buf| && b.buf[..n] == a.buf[..n]
    && a.txPos <= b.txPos && (a.txPos <= limit ==> b.txPos <= limit)
  }

  lemma {:induction false} WriteKeepsFront(buf: seq<Byte>, at: nat, data: seq<Byte>, n: nat)
    requires n <= at && at + |data| <= |buf|
    ensures Write(buf, at, data)[..n] == buf[..n]
  {
  }

  lemma {:induction false} PackKeepsFront(st: St, sig: DidSignal, raw: Word)
    requires sig.data.Valid() && st.startPos <= |st.buf|
    ensures PackSignal(st, sig, raw)[..st.startPos] == st.buf[..st.startPos]
  {
    var pos := 8 * st.startPos + sig.bitPosition;
    forall b | 0 <= b < st.startPos ensures PackSignal(st, sig, raw)[b] == st.buf[b] {
      PackTouchesAffectedBytes(st.buf, sig.data.endian, pos, sig.data.bits, DataVal(sig.data.dataType, raw), b);
    }
  }

  lemma {:induction false} AcquireKeepsFront(answers: nat -> Answer, sig: DidSignal, first: nat, len: nat, st: St)
    requires first + len <= |st.buf| && st.startPos <= first && sig.data.Valid()
    requires !Overruns(sig, st)
    ensures var r := Acquire(answers, sig, first, len, st).st;
            && |r.buf| == |st.buf| && r.buf[..st.startPos] == st.buf[..st.startPos]
            && r.txPos == st.txPos && r.startPos == st.startPos
  {
    hide PackSignal;
    var answer := answers(st.settled);
    WriteKeepsFront(st.buf, first, FitTo(answer.data, len, ZeroByte()), st.startPos);
    PackKeepsFront(st, sig, answer.raw);
    if Suspends(st) { PackKeepsFront(st, sig, st.turns[0].stale); }
  }

  lemma {:induction false} FetchGrows(answers: nat -> Answer, limit: nat, sig: DidSignal, i: nat, len: nat, st: St)
    requires limit <= |st.buf| && st.startPos <= |st.buf| && sig.data.Valid()
    ensures var r := Fetch(answers, limit, sig, i, len, st).st;
            Grew(st, r, st.startPos, limit) && r.startPos == st.startPos
  {
    hide Acquire;
    var first := st.startPos + sig.bitPosition / 8;
    if first + len <= limit && !Overruns(sig, st) { AcquireKeepsFront(answers, sig, first, len, st); }
  }

  lemma {:induction false} ReadPhaseGrows(answers: nat -> Answer, limit: nat, sig: DidSignal, i: nat, st: St)
    requires limit <= |st.buf| && st.startPos <= |st.buf| && sig.data.Valid()
    ensures var r := ReadPhase(answers, limit, sig, i, st).st;
            Grew(st, r, st.startPos, limit) && r.startPos == st.startPos
  {
    hide Fetch;
    FetchGrows(answers, limit, sig, i, GetNofAffectedBytes(sig.data.endian, sig.bitPosition, sig.data.bits), st);
    FetchGrows(answers, limit, sig, i, 0, st);
    FetchGrows(answers, limit, sig, i, st.dataLen, st);
    FetchGrows(answers, limit, sig, i, answers(st.settled).len, Called(st));
  }

  lemma {:induction false} SignalGrows(answers: nat -> Answer, limit: nat, sig: DidSignal, i: nat, st: St)
    requires limit <= |st.buf| && st.startPos <= |st.buf| && sig.data.Valid()
    ensures var r := SignalStep(answers, limit, sig, i, st).st;
            Grew(st, r, st.startPos, limit) && r.startPos == st.startPos
  {
    hide ReadPhase;
    ReadPhaseGrows(answers, limit, sig, i, st);
    ReadPhaseGrows(answers, limit, sig, i, Settled(st).(phase := Idle));
    ReadPhaseGrows(answers, limit, sig, i, Called(st));
  }

  lemma {:induction false} SignalsGrow(answers: nat -> Answer, limit: nat, signals: seq<DidSignal>, i: nat, st: St)
    requires limit <= |st.buf| && st.startPos <= |st.buf| && forall k | 0 <= k < |signals| :: signals[k].data.Valid()
    ensures var r := ReadSignals(answers, limit, signals, i, st).st;
            Grew(st, r, st.startPos, limit) && r.startPos == st.startPos
    decreases |signals| - i
  {
    hide SignalStep;
    if i < |signals| {
      SignalGrows(answers, limit, signals[i], i, st);
      SignalsGrow(answers, limit, signals, i + 1, SignalStep(answers, limit, signals[i], i, st).st);
    }
  }
}
