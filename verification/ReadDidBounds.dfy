/** When reading DIDs stays inside the response buffer. The program checks the bytes a signal
    occupies, but loads and stores a window of four, or five, around them. */
module ReadDidBounds {
  import opened Bits
  import opened Prelude
  import opened SRSignal
  import opened ReadDid
  import opened ReadDidGrowth
  import opened ReadDidLayout

  // Whether the window of a little-endian signal stays inside the data area of its DID, of the
  // given size, or there is enough memory behind the buffer.
  predicate Roomy(sig: DidSignal, size: nat, slack: nat) {
    sig.port.SenderReceiver? && sig.data.endian.Little? ==> sig.bitPosition / 8 + 4 <= size || slack >= 3
  }

  ghost predicate SignalsRoomy(did: Did, slack: nat) {
    forall i | 0 <= i < |did.signals| :: Roomy(did.signals[i], did.size, slack)
  }

  ghost predicate NodesRoomy(nodes: seq<Did>, slack: nat) {
    forall i | 0 <= i < |nodes| :: SignalsRoomy(nodes[i], slack)
  }

  ghost predicate RequestRoomy(req: Request, slack: nat) {
    forall id | id in req.lookup :: NodesRoomy(Preorder(req.lookup[id]), slack)
  }

  // Exactly when one signal that the size check accepts is read beyond the buffer.
  lemma {:induction false} FetchLeavesExactly(answers: nat -> Answer, limit: nat, sig: DidSignal, i: nat, st: St)
    requires limit <= |st.buf| && st.startPos >= 3 && sig.data.Valid() && sig.port.SenderReceiver?
    ensures var first, len :=
            st.startPos + sig.bitPosition / 8, GetNofAffectedBytes(sig.data.endian, sig.bitPosition, sig.data.bits);
            Fetch(answers, limit, sig, i, len, st).code.LeftBuffer?
            <==> first + len <= limit && sig.data.endian.Little? && first + 4 > |st.buf|
  {
    hide GetNofAffectedBytes, WindowInside, PackSignal;
    var first, len :=
      st.startPos + sig.bitPosition / 8, GetNofAffectedBytes(sig.data.endian, sig.bitPosition, sig.data.bits);
    if first + len <= limit {
      InsideExactly(sig, st);
    }
  }

  lemma {:induction false} InsideExactly(sig: DidSignal, st: St)
    requires st.startPos >= 3 && sig.data.Valid() && sig.port.SenderReceiver?
    requires st.startPos + sig.bitPosition / 8
             + GetNofAffectedBytes(sig.data.endian, sig.bitPosition, sig.data.bits) <= |st.buf|
    ensures Overruns(sig, st) <==> sig.data.endian.Little? && st.startPos + sig.bitPosition / 8 + 4 > |st.buf|
  {
    if !sig.data.endian.Undefined? {
      AcceptedStaysInside(sig.data.endian, sig.bitPosition, sig.data.bits, st.startPos, |st.buf|);
    }
  }

  lemma {:induction false} FetchStays(answers: nat -> Answer, limit: nat, sig: DidSignal, i: nat, len: nat, st: St,
                                      size: nat)
    requires limit <= |st.buf| && 3 <= st.startPos && st.startPos + size <= limit && sig.data.Valid()
    requires Roomy(sig, size, |st.buf| - limit)
    requires sig.port.SenderReceiver? ==> len == GetNofAffectedBytes(sig.data.endian, sig.bitPosition, sig.data.bits)
    ensures !Fetch(answers, limit, sig, i, len, st).code.LeftBuffer?
  {
    if sig.port.SenderReceiver? { FetchLeavesExactly(answers, limit, sig, i, st); }
  }

  lemma {:induction false} ReadPhaseStays(answers: nat -> Answer, limit: nat, sig: DidSignal, i: nat, st: St, size: nat)
    requires limit <= |st.buf| && 3 <= st.startPos && st.startPos + size <= limit && sig.data.Valid()
    requires Roomy(sig, size, |st.buf| - limit)
    ensures !ReadPhase(answers, limit, sig, i, st).code.LeftBuffer?
  {
    hide Fetch;
    FetchStays(answers, limit, sig, i, GetNofAffectedBytes(sig.data.endian, sig.bitPosition, sig.data.bits), st, size);
    if !sig.port.SenderReceiver? {
      FetchStays(answers, limit, sig, i, 0, st, size);
      FetchStays(answers, limit, sig, i, st.dataLen, st, size);
      FetchStays(answers, limit, sig, i, answers(st.settled).len, Called(st), size);
    }
  }

  lemma {:induction false} SignalStays(answers: nat -> Answer, limit: nat, sig: DidSignal, i: nat, st: St, size: nat)
    requires limit <= |st.buf| && 3 <= st.startPos && st.startPos + size <= limit && sig.data.Valid()
    requires Roomy(sig, size, |st.buf| - limit)
    ensures !SignalStep(answers, limit, sig, i, st).code.LeftBuffer?
  {
    hide ReadPhase;
    ReadPhaseStays(answers, limit, sig, i, st, size);
    ReadPhaseStays(answers, limit, sig, i, Settled(st).(phase := Idle), size);
    ReadPhaseStays(answers, limit, sig, i, Called(st), size);
  }

  lemma {:induction false} SignalsStay(answers: nat -> Answer, limit: nat, did: Did, i: nat, st: St)
    requires limit <= |st.buf| && 3 <= st.startPos && st.startPos + did.size <= limit
    requires SignalsOk(did) && SignalsRoomy(did, |st.buf| - limit)
    ensures !ReadSignals(answers, limit, did.signals, i, st).code.LeftBuffer?
    decreases |did.signals| - i
  {
    hide SignalStep;
    if i < |did.signals| {
      SignalStays(answers, limit, did.signals[i], i, st, did.size);
      SignalGrows(answers, limit, did.signals[i], i, st);
      SignalsStay(answers, limit, did, i + 1, SignalStep(answers, limit, did.signals[i], i, st).st);
    }
  }

  lemma {:induction false} NodeStays(answers: nat -> Answer, limit: nat, did: Did, st: St)
    requires limit <= |st.buf| && 1 <= st.txPos && st.phase.Idle? && SignalsOk(did)
             && SignalsRoomy(did, |st.buf| - limit)
    ensures !Node(answers, limit, did, 0, st).code.LeftBuffer?
  {
    hide ReadSignals;
    if st.txPos + did.size + 2 <= limit { SignalsStay(answers, limit, did, st.signalIndex, Begin(did, st)); }
  }

  lemma {:induction false} WalkStays(answers: nat -> Answer, limit: nat, nodes: seq<Did>, st: St)
    requires 1 <= st.txPos <= limit <= |st.buf| && st.phase.Idle? && NodesOk(nodes)
             && NodesRoomy(nodes, |st.buf| - limit)
    ensures !Walk(answers, limit, nodes, 0, st).code.LeftBuffer?
    decreases nodes
  {
    hide Node, IdBytes;
    if nodes != [] {
      assert SignalsOk(nodes[0]) && SignalsRoomy(nodes[0], |st.buf| - limit);
      NodeStays(answers, limit, nodes[0], st);
      NodeLaysOut(answers, limit, nodes[0], st);
      forall i | 0 <= i < |nodes[1..]|
        ensures SignalsOk(nodes[1..][i]) && SignalsRoomy(nodes[1..][i], |st.buf| - limit)
      {
        assert nodes[1..][i] == nodes[i + 1];
      }
      var r := Node(answers, limit, nodes[0], 0, st);
      if r.code.Positive? { WalkStays(answers, limit, nodes[1..], r.st); }
    }
  }

  lemma {:induction false} ReadFromStays(answers: nat -> Answer, limit: nat, req: Request, i: nat, st: St)
    requires 1 <= st.txPos <= limit <= |st.buf| && LookupOk(req) && RequestRoomy(req, |st.buf| - limit)
    requires st.phase.Idle? && st.turns == [] && st.signalIndex == 0
    ensures !ReadFrom(answers, limit, req, i, 0, st).code.LeftBuffer?
    decreases req.Count() - i
  {
    hide Walk, Preorder, ValidDid, IdBytes, Laid, NodesOk, NodesRoomy;
    if i < req.Count() {
      if !req.Supported(i) {
        ReadFromStays(answers, limit, req, i + 1, st);
      } else {
        PreorderOk(req.lookup[req.Id(i)]);
        WalkStays(answers, limit, req.Nodes(i), st);
        var _ := WalkLaysOut(answers, limit, req.Nodes(i), st);
        var r := Walk(answers, limit, req.Nodes(i), 0, st);
        if r.code.Positive? { ReadFromStays(answers, limit, req, i + 1, r.st.(didIndex := 0)); }
      }
    }
  }

  // However often it is suspended, a request stays inside the buffer if every little-endian
  // signal has four bytes left in the data area of its DID, or the buffer three bytes of memory
  // behind it.
  lemma {:induction false} ServeStays(answers: nat -> Answer, limit: nat, req: Request, st: St)
    requires 1 <= limit <= |st.buf| && st.phase.Idle? && LookupOk(req) && RequestRoomy(req, |st.buf| - limit)
    ensures !Serve(answers, limit, req, st).code.LeftBuffer?
  {
    hide ReadFrom, RequestRoomy;
    SuspensionInvisible(answers, limit, req, st);
    ReadFromStays(answers, limit, req, 0, Entry(st.(turns := [])));
  }

  function OneDid(id: nat, did: Did): Request
    requires id < 0x1_0000
  {
    Request([0x22, id / 256, id % 256], map[id := did])
  }

  // Otherwise it leaves: a DID whose first signal is not roomy, read into a buffer that just
  // holds its response.
  lemma {:induction false} SnugDidLeaves(answers: nat -> Answer, id: nat, did: Did, st: St)
    requires id < 0x1_0000 && did.access.Readable? && !did.onlyRefs && |did.signals| > 0
    requires var sig := did.signals[0];
             && sig.port.SenderReceiver? && sig.data.Valid()
             && sig.bitPosition / 8 + GetNofAffectedBytes(sig.data.endian, sig.bitPosition, sig.data.bits) <= did.size
             && !Roomy(sig, did.size, 0)
    requires st.phase.Idle? && |st.buf| == 3 + did.size
    ensures Serve(answers, |st.buf|, OneDid(id, did), st).code.LeftBuffer?
  {
    var req, limit := OneDid(id, did), |st.buf|;
    assert req.Count() == 1 && req.Id(0) == id && req.Supported(0) && !NoneSupported(req, 0);
    var entry := Entry(st.(turns := []));
    var begun := Begin(did, entry);
    SuspensionInvisible(answers, limit, req, st);
    FirstLeaves(answers, limit, did.signals[0], 0, begun, did.size);
    assert Node(answers, limit, did, 0, entry).code.LeftBuffer?;
    assert req.Nodes(0) == [did] + PreorderOfRefs(did, |did.refs|);
  }

  lemma {:induction false} FirstLeaves(answers: nat -> Answer, limit: nat, sig: DidSignal, i: nat, st: St, size: nat)
    requires st.phase.Idle? && st.startPos == 3 && |st.buf| == limit == 3 + size && sig.data.Valid()
             && !Roomy(sig, size, 0)
    requires sig.bitPosition / 8 + GetNofAffectedBytes(sig.data.endian, sig.bitPosition, sig.data.bits) <= size
    ensures SignalStep(answers, limit, sig, i, st).code.LeftBuffer?
  {
    hide Fetch;
    FetchLeavesExactly(answers, limit, sig, i, st);
  }

  ghost predicate CanLeave(id: nat, did: Did)
    requires id < 0x1_0000
  {
    exists answers: nat -> Answer, st: St | st.phase.Idle? && |st.buf| >= 1 ::
      Serve(answers, |st.buf|, OneDid(id, did), st).code.LeftBuffer?
  }

  // Whether some answers let the reading of this signal succeed.
  predicate CanSucceed(sig: DidSignal) {
    match sig.port
    case Synch | Asynch => sig.hasCheck && sig.hasRead
    case EcuSignal => sig.hasRead
    case SenderReceiver => !sig.data.endian.Undefined?
    case Unsupported => false
  }

  // A signal without room that is read, once all signals before it have succeeded.
  ghost predicate Reaches(did: Did, k: nat)
    requires k < |did.signals|
  {
    !Roomy(did.signals[k], did.size, 0) && forall j | 0 <= j < k :: CanSucceed(did.signals[j])
  }

  ghost predicate InsideDataArea(did: Did) {
    forall k | 0 <= k < |did.signals| ::
      var sig := did.signals[k];
      sig.bitPosition / 8 + GetNofAffectedBytes(sig.data.endian, sig.bitPosition, sig.data.bits) <= did.size
  }

  // A signal that cannot succeed ends the reading inside the buffer.
  lemma {:induction false} HopelessSignal(answers: nat -> Answer, limit: nat, sig: DidSignal, i: nat, st: St)
    requires limit <= |st.buf| && st.phase.Idle? && st.turns == [] && !CanSucceed(sig)
    ensures var code := SignalStep(answers, limit, sig, i, st).code; !code.Positive? && !code.LeftBuffer?
  {
  }

  lemma {:induction false} UnreachedSignalsStay(answers: nat -> Answer, limit: nat, did: Did, i: nat, st: St)
    requires limit == |st.buf| && 3 <= st.startPos && st.startPos + did.size <= limit && st.phase.Idle?
             && st.turns == []
    requires SignalsOk(did) && i <= |did.signals| && forall j | 0 <= j < i :: CanSucceed(did.signals[j])
    requires forall k | 0 <= k < |did.signals| :: !Reaches(did, k)
    ensures !ReadSignals(answers, limit, did.signals, i, st).code.LeftBuffer?
    decreases |did.signals| - i
  {
    hide SignalStep;
    if i < |did.signals| {
      var sig := did.signals[i];
      if CanSucceed(sig) {
        assert !Reaches(did, i);
        SignalStays(answers, limit, sig, i, st, did.size);
        SignalGrows(answers, limit, sig, i, st);
        var r := SignalStep(answers, limit, sig, i, st);
        if r.code.Positive? { UnreachedSignalsStay(answers, limit, did, i + 1, r.st); }
      } else {
        HopelessSignal(answers, limit, sig, i, st);
      }
    }
  }

  // The answers with which everything succeeds that can.
  function AllWell(): (answers: nat -> Answer) { _ => Answer(true, true, 0, [], Zero()) }

  lemma {:induction false} SignalSucceeds(limit: nat, sig: DidSignal, i: nat, st: St, size: nat)
    requires limit == |st.buf| && 3 <= st.startPos && st.startPos + size <= limit && st.phase.Idle? && st.turns == []
    requires sig.data.Valid() && CanSucceed(sig) && Roomy(sig, size, 0)
    requires sig.bitPosition / 8 + GetNofAffectedBytes(sig.data.endian, sig.bitPosition, sig.data.bits) <= size
    ensures SignalStep(AllWell(), limit, sig, i, st).code.Positive?
  {
    SignalStays(AllWell(), limit, sig, i, st, size);
    hide GetNofAffectedBytes, PackSignal, FitTo, WindowInside;
  }

  lemma {:induction false} ReachedSignalLeaves(limit: nat, did: Did, i: nat, k: nat, st: St)
    requires st.phase.Idle? && st.turns == [] && st.startPos == 3 && |st.buf| == limit == 3 + did.size
    requires SignalsOk(did) && InsideDataArea(did) && i <= k < |did.signals| && Reaches(did, k)
    ensures ReadSignals(AllWell(), limit, did.signals, i, st).code.LeftBuffer?
    decreases k - i
  {
    hide SignalStep;
    var sig := did.signals[i];
    if !Roomy(sig, did.size, 0) {
      FirstLeaves(AllWell(), limit, sig, i, st, did.size);
    } else {
      SignalSucceeds(limit, sig, i, st, did.size);
      SignalGrows(AllWell(), limit, sig, i, st);
      ReachedSignalLeaves(limit, did, i + 1, k, SignalStep(AllWell(), limit, sig, i, st).st);
    }
  }

  // For a DID without references, with any number of signals inside its data area: some response
  // buffer is left by some run exactly if a little-endian signal with fewer than four bytes of the
  // data area from its first byte on can be reached.
  lemma {:induction false} CanLeaveExactly(id: nat, did: Did)
    requires id < 0x1_0000 && ValidDid(did) && did.access.Readable? && !did.onlyRefs && did.refs == []
    requires InsideDataArea(did)
    ensures CanLeave(id, did) <==> exists k | 0 <= k < |did.signals| :: Reaches(did, k)
  {
    hide Serve, Reaches, InsideDataArea;
    if k :| 0 <= k < |did.signals| && Reaches(did, k) {
      var st := St(seq(3 + did.size, _ => ZeroByte()), 1, Idle, 0, 0, 0, 0, 0, 0, 0, []);
      ReachedDidLeaves(id, did, k, st);
    } else {
      forall answers: nat -> Answer, st: St | st.phase.Idle? && |st.buf| >= 1
        ensures !Serve(answers, |st.buf|, OneDid(id, did), st).code.LeftBuffer?
      {
        UnreachedDidStays(answers, id, did, st);
      }
    }
  }

  // A request for one DID without references is the reading of that node.
  lemma {:induction false} OneNode(answers: nat -> Answer, id: nat, did: Did, st: St)
    requires id < 0x1_0000 && did.refs == [] && st.phase.Idle?
    ensures Serve(answers, |st.buf|, OneDid(id, did), st).code.LeftBuffer?
            <==> Node(answers, |st.buf|, did, 0, Entry(st.(turns := []))).code.LeftBuffer?
  {
    hide Node;
    var req, limit := OneDid(id, did), |st.buf|;
    assert req.Count() == 1 && req.Id(0) == id && req.Supported(0) && !NoneSupported(req, 0);
    SuspensionInvisible(answers, limit, req, st);
    assert req.Nodes(0) == Preorder(did) == [did];
    var entry := Entry(st.(turns := []));
    var n := Node(answers, limit, did, 0, entry);
    assert [did][1..] == [];
    assert Walk(answers, limit, [did], 0, entry) == if n.code.Positive? then Result(n.st, Positive) else n;
    assert ReadFrom(answers, limit, req, 0, 0, entry).code == n.code;
  }

  lemma {:induction false} ReachedDidLeaves(id: nat, did: Did, k: nat, st: St)
    requires id < 0x1_0000 && ValidDid(did) && did.access.Readable? && !did.onlyRefs && did.refs == []
    requires InsideDataArea(did) && k < |did.signals| && Reaches(did, k)
    requires st.phase.Idle? && |st.buf| == 3 + did.size
    ensures Serve(AllWell(), |st.buf|, OneDid(id, did), st).code.LeftBuffer?
  {
    hide Serve, ReadSignals, Reaches, InsideDataArea;
    OneNode(AllWell(), id, did, st);
    ReachedSignalLeaves(|st.buf|, did, 0, k, Begin(did, Entry(st.(turns := []))));
  }

  lemma {:induction false} UnreachedDidStays(answers: nat -> Answer, id: nat, did: Did, st: St)
    requires id < 0x1_0000 && ValidDid(did) && did.access.Readable? && !did.onlyRefs && did.refs == []
    requires st.phase.Idle? && |st.buf| >= 1 && forall k | 0 <= k < |did.signals| :: !Reaches(did, k)
    ensures !Serve(answers, |st.buf|, OneDid(id, did), st).code.LeftBuffer?
  {
    hide Serve, ReadSignals, Reaches;
    OneNode(answers, id, did, st);
    if 3 + did.size <= |st.buf| {
      UnreachedSignalsStay(answers, |st.buf|, did, 0, Begin(did, Entry(st.(turns := []))));
    }
  }
}
