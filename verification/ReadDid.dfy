/** ReadDataByIdentifier over a tree of DIDs. Reading may be suspended by E_PENDING at any
    signal of any node and is later run again from the start, with saved indices. */
module ReadDid {
  import opened Bits
  import opened Prelude
  import opened SRSignal

  // ---------- Configuration ----------

  datatype Port = Synch | Asynch | EcuSignal | SenderReceiver | Unsupported

  datatype DidSignal = DidSignal(port: Port, data: Data, bitPosition: nat, fixedLength: bool,
                                 hasCheck: bool, hasLength: bool, hasRead: bool)

  // The outcome of the read-access, session and security tests, which stay fixed.
  datatype Access = NotConfigured | NotInSession | SecurityLocked | Readable

  datatype Did = Did(id: nat, access: Access, onlyRefs: bool, signals: seq<DidSignal>, size: nat, refs: seq<Did>)

  ghost predicate ValidDid(did: Did) {
    && (forall i | 0 <= i < |did.signals| :: did.signals[i].data.Valid())
    && forall i | 0 <= i < |did.refs| :: ValidDid(did.refs[i])
  }

  // ---------- Callbacks ----------

  // The answer that settles one callback. A condition check uses ok and positive, a length
  // callback ok and len, a read callback ok with data (or raw, for a sender-receiver port).
  // E_PENDING from a callback that must not give it is handled as E_NOT_OK: ok is false.
  datatype Answer = Answer(ok: bool, positive: bool, len: nat, data: seq<Byte>, raw: Word)

  // What a callback that may suspend does when called: settle, or answer E_PENDING. The
  // unset temporary of a pending sender-receiver read holds stale bits.
  datatype Turn = Settle | Suspend(stale: Word)

  // ---------- State ----------

  datatype Phase = Idle | CondCheck | ReadData

  // LeftBuffer is no response code: the program has accessed memory outside the response buffer,
  // and C says nothing about what happens then.
  datatype Nrc = Positive | Pending | ConditionsNotCorrect | RequestOutOfRange | ResponseTooLong
    | SecurityAccessDenied | IncorrectLength | LeftBuffer

  // buf and txPos: the response buffer with any memory behind it that may be accessed, and the
  // write position. phase, signalIndex, dataLen, startPos,
  // didIndex and reqIndex: the saved pending state. turns: what the callbacks that may suspend
  // do from now on (all settle once it is used up); settled: how many callbacks have settled.
  datatype St = St(buf: seq<Byte>, txPos: nat, phase: Phase, signalIndex: nat, dataLen: nat, startPos: nat,
                   didIndex: nat, reqIndex: nat, pendingDid: nat, settled: nat, turns: seq<Turn>)

  datatype Result = Result(st: St, code: Nrc)

  predicate Suspends(st: St) { st.turns != [] && st.turns[0].Suspend? }

  function Suspended(st: St): St
    requires Suspends(st)
  {
    st.(turns := st.turns[1..])
  }

  // A callback that may suspend settles.
  function Settled(st: St): St {
    st.(turns := if st.turns == [] then [] else st.turns[1..], settled := st.settled + 1)
  }

  // A synchronous callback settles.
  function Called(st: St): St { st.(settled := st.settled + 1) }

  function ZeroBytes(n: nat): seq<Byte> { seq(n, _ => ZeroByte()) }

  function ByteOfNat(x: nat): Byte {
    seq(8, t requires 0 <= t < 8 => x / Power2(t) % 2 == 1)
  }

  // The two identifier bytes, high byte first.
  function IdBytes(id: nat): (r: seq<Byte>)
    ensures |r| == 2
  {
    [ByteOfNat(id / 256), ByteOfNat(id % 256)]
  }

  // ---------- One signal ----------

  // The bounds every step keeps, and the promise that only a suspension gives Pending.
  predicate Steps(a: St, r: Result) {
    && |r.st.buf| == |a.buf| && |r.st.turns| <= |a.turns|
    && (r.code.Pending? ==> |r.st.turns| < |a.turns|)
    && r.st.reqIndex == a.reqIndex
  }

  function SignalStep(answers: nat -> Answer, limit: nat, sig: DidSignal, i: nat, st: St): (r: Result)
    requires limit <= |st.buf|
    ensures Steps(st, r) && r.st.didIndex == st.didIndex
    ensures r.code.Pending? ==> r.st.signalIndex == i && !r.st.phase.Idle?
    ensures r.code.Positive? ==> r.st.phase.Idle? && r.st.signalIndex == st.signalIndex
  {
    if st.phase.ReadData? || sig.port.EcuSignal? || sig.port.SenderReceiver? then
      ReadPhase(answers, limit, sig, i, st)
    else if sig.port.Asynch? then
      if !sig.hasCheck then Result(st.(phase := Idle), ConditionsNotCorrect)
      else if Suspends(st) then Result(Suspended(st).(phase := CondCheck, signalIndex := i), Pending)
      else
        var st' := Settled(st).(phase := Idle);
        if answers(st.settled).ok && answers(st.settled).positive then ReadPhase(answers, limit, sig, i, st')
        else Result(st', ConditionsNotCorrect)
    else if sig.port.Synch? && sig.hasCheck then
      if answers(st.settled).ok && answers(st.settled).positive then ReadPhase(answers, limit, sig, i, Called(st))
      else Result(Called(st), ConditionsNotCorrect)
    else Result(st, ConditionsNotCorrect)
  }

  function ReadPhase(answers: nat -> Answer, limit: nat, sig: DidSignal, i: nat, st: St): (r: Result)
    requires limit <= |st.buf|
    ensures Steps(st, r) && r.st.didIndex == st.didIndex
    ensures r.code.Pending? ==> r.st.signalIndex == i && r.st.phase.ReadData?
    ensures r.code.Positive? ==> r.st.phase.Idle? && r.st.signalIndex == st.signalIndex
  {
    if sig.fixedLength || sig.port.SenderReceiver? then
      Fetch(answers, limit, sig, i, GetNofAffectedBytes(sig.data.endian, sig.bitPosition, sig.data.bits), st)
    else if !sig.hasLength then Fetch(answers, limit, sig, i, 0, st)
    else if !st.phase.Idle? then Fetch(answers, limit, sig, i, st.dataLen, st)
    else if answers(st.settled).ok then Fetch(answers, limit, sig, i, answers(st.settled).len, Called(st))
    else Result(Called(st), ConditionsNotCorrect)
  }

  function Fetch(answers: nat -> Answer, limit: nat, sig: DidSignal, i: nat, len: nat, st: St): (r: Result)
    requires limit <= |st.buf|
    ensures Steps(st, r) && r.st.didIndex == st.didIndex
    ensures r.code.Pending? ==> r.st.signalIndex == i && r.st.phase.ReadData?
    ensures r.code.Positive? ==> r.st.phase.Idle? && r.st.signalIndex == st.signalIndex
  {
    var first := st.startPos + sig.bitPosition / 8;
    if first + len > limit then Result(st, RequestOutOfRange)
    else
      match Acquire(answers, sig, first, len, st)
      case Outside => Result(st, LeftBuffer)
      case Acquired(st', ret) => Conclude(st', ret, i, len, first + len)
  }

  datatype Acquired = Acquired(st: St, ret: Ret) | Outside

  // The window of a sender-receiver signal is not all inside the buffer.
  predicate Overruns(sig: DidSignal, st: St) {
    && sig.port.SenderReceiver? && sig.data.Valid()
    && !WindowInside(sig.data.endian, sig.bitPosition, sig.data.bits, st.startPos, |st.buf|)
  }

  // The read callback is called and its data, if any, lands in the buffer.
  function Acquire(answers: nat -> Answer, sig: DidSignal, first: nat, len: nat, st: St): (r: Acquired)
    requires first + len <= |st.buf|
    ensures r.Outside? <==> Overruns(sig, st)
    ensures r.Acquired? ==>
              && Steps(st, Result(r.st, if r.ret.EPending? then Pending else Positive))
              && r.st.didIndex == st.didIndex && r.st.signalIndex == st.signalIndex
  {
    var answer := answers(st.settled);
    match sig.port
    case Synch | EcuSignal =>
      if !sig.hasRead then Acquired(st, ENotOk)
      else if !answer.ok then Acquired(Called(st), ENotOk)
      else Acquired(Called(st).(buf := Write(st.buf, first, FitTo(answer.data, len, ZeroByte()))), EOk)
    case Asynch =>
      if !sig.hasRead then Acquired(st, ENotOk)
      else if Suspends(st) then Acquired(Suspended(st), EPending)
      else if !answer.ok then Acquired(Settled(st), ENotOk)
      else Acquired(Settled(st).(buf := Write(st.buf, first, FitTo(answer.data, len, ZeroByte()))), EOk)
    case SenderReceiver =>
      if Overruns(sig, st) then Outside
      else if sig.data.endian.Undefined? then Acquired(Called(st), ENotOk)
      else if Suspends(st) then
        Acquired(Suspended(st).(buf := PackSignal(st, sig, st.turns[0].stale)), EPending)
      else Acquired(Settled(st).(buf := PackSignal(st, sig, answer.raw)), if answer.ok then EOk else ENotOk)
    case Unsupported => Acquired(st, ENotOk)
  }

  function Conclude(st: St, ret: Ret, i: nat, len: nat, end: nat): Result {
    match ret
    case EPending => Result(st.(phase := ReadData, dataLen := len, signalIndex := i), Pending)
    case ENotOk => Result(st, ConditionsNotCorrect)
    case EOk => Result(st.(phase := Idle, txPos := if st.txPos < end then end else st.txPos), Positive)
  }

  function PackSignal(st: St, sig: DidSignal, raw: Word): (r: seq<Byte>)
    ensures |r| == |st.buf|
  {
    if sig.data.bits > 32 then st.buf
    else Pack(st.buf, sig.data.endian, 8 * st.startPos + sig.bitPosition, sig.data.bits,
      DataVal(sig.data.dataType, raw))
  }

  // ---------- One DID ----------

  function ReadSignals(answers: nat -> Answer, limit: nat, signals: seq<DidSignal>, i: nat, st: St): (r: Result)
    requires limit <= |st.buf|
    ensures Steps(st, r) && r.st.didIndex == st.didIndex
    ensures r.code.Pending? ==> i <= r.st.signalIndex < |signals| && !r.st.phase.Idle?
    ensures r.code.Positive? && (i < |signals| || st.phase.Idle?) ==> r.st.phase.Idle?
    decreases |signals| - i
  {
    if i >= |signals| then Result(st, Positive)
    else
      var r := SignalStep(answers, limit, signals[i], i, st);
      if r.code.Positive? then ReadSignals(answers, limit, signals, i + 1, r.st) else r
  }

  // The identifier and a zeroed data area are laid out.
  function Begin(did: Did, st: St): (r: St)
    requires st.txPos + did.size + 2 <= |st.buf|
    ensures |r.buf| == |st.buf|
  {
    var withId := Write(st.buf, st.txPos, IdBytes(did.id));
    st.(buf := Write(withId, st.txPos + 2, ZeroBytes(did.size)), txPos := st.txPos + 2, startPos := st.txPos + 2)
  }

  function GetDidData(answers: nat -> Answer, limit: nat, did: Did, st: St): (r: Result)
    requires limit <= |st.buf|
    ensures Steps(st, r) && r.st.didIndex == st.didIndex
    ensures r.code.Pending? ==> r.st.signalIndex < |did.signals| && !r.st.phase.Idle?
  {
    if !st.phase.Idle? then ReadSignals(answers, limit, did.signals, st.signalIndex, st)
    else if st.txPos + did.size + 2 <= limit then
      ReadSignals(answers, limit, did.signals, st.signalIndex, Begin(did, st))
    else Result(st, ResponseTooLong)
  }

  // readDidData without its recursive calls: the node itself.
  function Node(answers: nat -> Answer, limit: nat, did: Did, start: nat, st: St): (r: Result)
    requires limit <= |st.buf|
    ensures Steps(st, r)
    ensures r.code.Positive? ==> r.st.didIndex == st.didIndex + 1
    ensures r.code.Pending? ==>
              r.st.didIndex == st.didIndex && did.access.Readable? && !did.onlyRefs && start <= st.didIndex
              && r.st.signalIndex < |did.signals| && !r.st.phase.Idle?
  {
    match did.access
    case NotConfigured | NotInSession => Result(st, RequestOutOfRange)
    case SecurityLocked => Result(st, SecurityAccessDenied)
    case Readable =>
      if !did.onlyRefs && st.didIndex >= start then
        var r := GetDidData(answers, limit, did, st);
        if r.code.Pending? then Result(r.st.(pendingDid := did.id), Pending)
        else if r.code.Positive? then Result(r.st.(didIndex := st.didIndex + 1, signalIndex := 0), Positive)
        else r
      else if st.didIndex < start then Result(st.(didIndex := st.didIndex + 1), Positive)
      else if st.txPos + 2 <= limit then
        Result(st.(buf := Write(st.buf, st.txPos, IdBytes(did.id)), txPos := st.txPos + 2,
                   didIndex := st.didIndex + 1), Positive)
      else Result(st.(didIndex := st.didIndex + 1), ResponseTooLong)
  }

  // ---------- The tree, in the order it is visited ----------

  function Preorder(did: Did): (r: seq<Did>)
    ensures |r| >= 1
    decreases did, |did.refs| + 1
  {
    [did] + PreorderOfRefs(did, |did.refs|)
  }

  function PreorderOfRefs(did: Did, n: nat): seq<Did>
    requires n <= |did.refs|
    decreases did, n
  {
    if n == 0 then [] else PreorderOfRefs(did, n - 1) + Preorder(did.refs[n - 1])
  }

  function Walk(answers: nat -> Answer, limit: nat, nodes: seq<Did>, start: nat, st: St): (r: Result)
    requires limit <= |st.buf|
    ensures Steps(st, r)
    ensures r.code.Positive? ==> r.st.didIndex == st.didIndex + |nodes|
    ensures r.code.Pending? ==> st.didIndex <= r.st.didIndex < st.didIndex + |nodes| && !r.st.phase.Idle?
  {
    if nodes == [] then Result(st, Positive)
    else
      var r := Node(answers, limit, nodes[0], start, st);
      if r.code.Positive? then Walk(answers, limit, nodes[1..], start, r.st) else r
  }

  // ---------- The whole request ----------

  // request: the request bytes; lookup: the configured DIDs outside the dynamic ones.
  datatype Request = Request(bytes: seq<nat>, lookup: map<nat, Did>) {
    predicate LengthOk() { |bytes| >= 3 && (|bytes| - 1) % 2 == 0 }

    function Count(): nat { if |bytes| == 0 then 0 else (|bytes| - 1) / 2 }

    function Id(i: nat): nat
      requires i < Count()
    {
      bytes[1 + 2 * i] * 256 + bytes[2 + 2 * i]
    }

    predicate Supported(i: nat)
      requires i < Count()
    {
      Id(i) in lookup
    }

    function Nodes(i: nat): seq<Did>
      requires i < Count() && Supported(i)
    {
      Preorder(lookup[Id(i)])
    }
  }

  function ReadFrom(answers: nat -> Answer, limit: nat, req: Request, i: nat, start: nat, st: St): (r: Result)
    requires limit <= |st.buf|
    ensures |r.st.buf| == |st.buf| && |r.st.turns| <= |st.turns|
    ensures r.code.Pending? ==> |r.st.turns| < |st.turns| && !r.st.phase.Idle?
    decreases req.Count() - i
  {
    if i >= req.Count() then Result(st, Positive)
    else if !req.Supported(i) then ReadFrom(answers, limit, req, i + 1, start, st)
    else
      var r := Walk(answers, limit, req.Nodes(i), start, st);
      if r.code.Pending? then Result(r.st.(reqIndex := i), Pending)
      else if r.code.Positive? then ReadFrom(answers, limit, req, i + 1, 0, r.st.(didIndex := 0))
      else r
  }

  // The local variables of a call, fresh or restored.
  function Entry(st: St): St {
    if st.phase.Idle? then
      st.(txPos := 1, signalIndex := 0, dataLen := 0, startPos := 0, didIndex := 0, reqIndex := 0)
    else st.(didIndex := 0)
  }

  predicate NoneSupported(req: Request, from: nat) {
    forall j | from <= j < req.Count() :: !req.Supported(j)
  }

  // One call of the service function. It ends the request unless it returns Pending.
  function Call(answers: nat -> Answer, limit: nat, req: Request, st: St): (r: Result)
    requires limit <= |st.buf|
    ensures |r.st.buf| == |st.buf|
    ensures r.code.Pending? <==> !r.st.phase.Idle?
    ensures r.code.Pending? ==> |r.st.turns| < |st.turns|
  {
    if !req.LengthOk() then Result(st.(phase := Idle, didIndex := 0), IncorrectLength)
    else
      var entry := Entry(st);
      var start := if st.phase.Idle? then 0 else st.didIndex;
      var r := ReadFrom(answers, limit, req, entry.reqIndex, start, entry);
      if r.code.Pending? then r
      else if NoneSupported(req, entry.reqIndex) then Result(r.st.(phase := Idle, didIndex := 0), RequestOutOfRange)
      else Result(r.st.(phase := Idle, didIndex := 0), r.code)
  }

  // The main function repeats the call until the request has ended.
  function Serve(answers: nat -> Answer, limit: nat, req: Request, st: St): (r: Result)
    requires limit <= |st.buf|
    ensures !r.code.Pending? && |r.st.buf| == |st.buf|
    decreases |st.turns|
  {
    var r := Call(answers, limit, req, st);
    if r.code.Pending? then Serve(answers, limit, req, r.st) else r
  }

  // ---------- Suspension does not show ----------

  // The state without the bookkeeping of suspensions that nobody reads any more.
  function Norm(st: St): St {
    if st.phase.Idle? then st.(turns := [], pendingDid := 0, reqIndex := 0, dataLen := 0, signalIndex := 0)
    else st.(turns := [], pendingDid := 0, reqIndex := 0)
  }

  // The same answer: code, response bytes, length and callbacks settled. After a positive
  // step the states also continue alike.
  predicate Agree(x: Result, y: Result) {
    && x.code == y.code
    && x.st.buf == y.st.buf && x.st.txPos == y.st.txPos && x.st.settled == y.st.settled
    && (x.code.Positive? ==> Norm(x.st) == Norm(y.st))
  }

  // Each level below is compared with the direct run, in which every callback settles at
  // once: a step that ends agrees with it, and a step that is suspended leaves a state from
  // which the direct run still gives the same answer.

  lemma {:induction false} StaleBitsOverwritten(st: St, sig: DidSignal, stale: Word, raw: Word)
    ensures PackSignal(st.(buf := PackSignal(st, sig, stale)), sig, raw) == PackSignal(st, sig, raw)
  {
    if sig.data.bits <= 32 {
      PackOverwrites(st.buf, sig.data.endian, 8 * st.startPos + sig.bitPosition, sig.data.bits,
                     DataVal(sig.data.dataType, stale), DataVal(sig.data.dataType, raw));
    }
  }

  // What the next lemma says about one Fetch.
  ghost predicate FetchAgrees(answers: nat -> Answer, limit: nat, sig: DidSignal, i: nat, len: nat, st: St)
    requires limit <= |st.buf|
  {
    var r, d := Fetch(answers, limit, sig, i, len, st), Fetch(answers, limit, sig, i, len, Norm(st));
    if r.code.Pending? then Agree(Fetch(answers, limit, sig, i, len, Norm(r.st)), d) && r.st.dataLen == len
    else Agree(r, d)
  }

  lemma {:induction false} PackSignalReads(a: St, b: St, sig: DidSignal, raw: Word)
    requires a.buf == b.buf && a.startPos == b.startPos
    ensures PackSignal(a, sig, raw) == PackSignal(b, sig, raw)
  {
  }

  lemma {:induction false} SenderReceiverSim(answers: nat -> Answer, limit: nat, sig: DidSignal, i: nat, len: nat,
                                             st: St)
    requires limit <= |st.buf| && sig.port.SenderReceiver?
    ensures FetchAgrees(answers, limit, sig, i, len, st)
  {
    hide PackSignal, FitTo, Write, WindowInside;
    var raw := answers(st.settled).raw;
    PackSignalReads(Norm(st), st, sig, raw);
    var r := Fetch(answers, limit, sig, i, len, st);
    if r.code.Pending? {
      StaleBitsOverwritten(st, sig, st.turns[0].stale, raw);
      PackSignalReads(Norm(r.st), st.(buf := r.st.buf), sig, raw);
    }
  }

  lemma {:induction false} AsynchSim(answers: nat -> Answer, limit: nat, sig: DidSignal, i: nat, len: nat, st: St)
    requires limit <= |st.buf| && sig.port.Asynch?
    ensures FetchAgrees(answers, limit, sig, i, len, st)
  {
    hide PackSignal, FitTo, Write, Overruns;
  }

  lemma {:induction false} SynchSim(answers: nat -> Answer, limit: nat, sig: DidSignal, i: nat, len: nat, st: St)
    requires limit <= |st.buf| && !sig.port.Asynch? && !sig.port.SenderReceiver?
    ensures FetchAgrees(answers, limit, sig, i, len, st)
  {
    hide PackSignal, FitTo, Write, Overruns;
  }

  lemma {:induction false} FetchSim(answers: nat -> Answer, limit: nat, sig: DidSignal, i: nat, len: nat, st: St)
    requires limit <= |st.buf|
    ensures FetchAgrees(answers, limit, sig, i, len, st)
  {
    match sig.port
    case SenderReceiver => SenderReceiverSim(answers, limit, sig, i, len, st);
    case Asynch => AsynchSim(answers, limit, sig, i, len, st);
    case _ => SynchSim(answers, limit, sig, i, len, st);
  }

  lemma {:induction false} ReadPhaseSim(answers: nat -> Answer, limit: nat, sig: DidSignal, i: nat, st: St)
    requires limit <= |st.buf|
    ensures var r, d := ReadPhase(answers, limit, sig, i, st), ReadPhase(answers, limit, sig, i, Norm(st));
            if r.code.Pending? then Agree(ReadPhase(answers, limit, sig, i, Norm(r.st)), d) else Agree(r, d)
  {
    if sig.fixedLength || sig.port.SenderReceiver? {
      FetchSim(answers, limit, sig, i, GetNofAffectedBytes(sig.data.endian, sig.bitPosition, sig.data.bits), st);
    } else if !sig.hasLength {
      FetchSim(answers, limit, sig, i, 0, st);
    } else if !st.phase.Idle? {
      FetchSim(answers, limit, sig, i, st.dataLen, st);
    } else {
      FetchSim(answers, limit, sig, i, answers(st.settled).len, Called(st));
      assert Called(Norm(st)) == Norm(Called(st));
    }
  }

  lemma {:induction false} SignalSim(answers: nat -> Answer, limit: nat, sig: DidSignal, i: nat, st: St)
    requires limit <= |st.buf|
    ensures var r, d := SignalStep(answers, limit, sig, i, st), SignalStep(answers, limit, sig, i, Norm(st));
            if r.code.Pending? then Agree(SignalStep(answers, limit, sig, i, Norm(r.st)), d) else Agree(r, d)
  {
    hide ReadPhase;
    var d := SignalStep(answers, limit, sig, i, Norm(st));
    if st.phase.ReadData? || sig.port.EcuSignal? || sig.port.SenderReceiver? {
      ReadPhaseSim(answers, limit, sig, i, st);
    } else if sig.port.Asynch? {
      var st' := Settled(st).(phase := Idle);
      ReadPhaseSim(answers, limit, sig, i, st');
      ReadPhaseSim(answers, limit, sig, i, Settled(Norm(st)).(phase := Idle));
      assert Norm(Settled(Norm(st)).(phase := Idle)) == Norm(st');
      if sig.hasCheck && Suspends(st) {
        var again := Settled(Norm(Suspended(st).(phase := CondCheck, signalIndex := i))).(phase := Idle);
        assert Norm(again) == Norm(st');
        ReadPhaseSim(answers, limit, sig, i, again);
      }
    } else if sig.port.Synch? && sig.hasCheck {
      ReadPhaseSim(answers, limit, sig, i, Called(st));
      assert Called(Norm(st)) == Norm(Called(st));
    }
  }

  lemma {:induction false} ReadSignalsSim(answers: nat -> Answer, limit: nat, signals: seq<DidSignal>, i: nat, st: St)
    requires limit <= |st.buf|
    ensures var r, d := ReadSignals(answers, limit, signals, i, st), ReadSignals(answers, limit, signals, i, Norm(st));
            if r.code.Pending? then Agree(ReadSignals(answers, limit, signals, r.st.signalIndex, Norm(r.st)), d)
            else Agree(r, d)
    decreases |signals| - i, 1
  {
    if i < |signals| {
      SignalSim(answers, limit, signals[i], i, st);
      var r := SignalStep(answers, limit, signals[i], i, st);
      var d := SignalStep(answers, limit, signals[i], i, Norm(st));
      if r.code.Positive? {
        ReadSignalsSim(answers, limit, signals, i + 1, r.st);
        ReadSignalsSim(answers, limit, signals, i + 1, d.st);
      } else if r.code.Pending? {
        ReadSignalsAgree(answers, limit, signals, i, Norm(r.st), Norm(st));
      }
    }
  }

  // Two direct runs whose first signal agrees agree to the end.
  lemma {:induction false} ReadSignalsAgree(answers: nat -> Answer, limit: nat, signals: seq<DidSignal>, i: nat, a: St,
                                            b: St)
    requires i < |signals| && limit <= |a.buf| && limit <= |b.buf| && a.turns == b.turns == []
    ensures Agree(SignalStep(answers, limit, signals[i], i, a), SignalStep(answers, limit, signals[i], i, b)) ==>
              Agree(ReadSignals(answers, limit, signals, i, a), ReadSignals(answers, limit, signals, i, b))
    decreases |signals| - i, 0
  {
    var x := SignalStep(answers, limit, signals[i], i, a);
    var y := SignalStep(answers, limit, signals[i], i, b);
    if x.code.Positive? && Agree(x, y) {
      ReadSignalsSim(answers, limit, signals, i + 1, x.st);
      ReadSignalsSim(answers, limit, signals, i + 1, y.st);
    }
  }

  // Between nodes, reading starts at the first signal.
  predicate Clean(st: St) { st.phase.Idle? ==> st.signalIndex == 0 }

  // The node at which a suspended walk waits.
  predicate WaitsAt(did: Did, st: St) {
    did.access.Readable? && !did.onlyRefs && !st.phase.Idle? && st.signalIndex < |did.signals|
  }

  lemma {:induction false} GetDidDataSim(answers: nat -> Answer, limit: nat, did: Did, st: St)
    requires limit <= |st.buf| && Clean(st)
    ensures var r, d := GetDidData(answers, limit, did, st), GetDidData(answers, limit, did, Norm(st));
            if r.code.Pending? then Agree(GetDidData(answers, limit, did, Norm(r.st)), d) else Agree(r, d)
  {
    if !st.phase.Idle? {
      ReadSignalsSim(answers, limit, did.signals, st.signalIndex, st);
    } else if st.txPos + did.size + 2 <= limit {
      assert Begin(did, Norm(st)) == Norm(Begin(did, st));
      ReadSignalsSim(answers, limit, did.signals, 0, Begin(did, st));
    }
  }

  lemma {:induction false} NodeSim(answers: nat -> Answer, limit: nat, did: Did, start: nat, st: St)
    requires limit <= |st.buf| && Clean(st)
    ensures var r, d := Node(answers, limit, did, start, st), Node(answers, limit, did, start, Norm(st));
            if r.code.Pending? then Agree(Node(answers, limit, did, r.st.didIndex, Norm(r.st)), d) && WaitsAt(did, r.st)
            else Agree(r, d) && (r.code.Positive? ==> Clean(r.st) && did.access.Readable?)
  {
    if did.access.Readable? && !did.onlyRefs && st.didIndex >= start {
      GetDidDataSim(answers, limit, did, st);
      var r := GetDidData(answers, limit, did, st);
      if r.code.Pending? {
        assert Norm(r.st.(pendingDid := did.id)) == Norm(r.st);
      }
    }
  }

  lemma {:induction false} StartIrrelevant(answers: nat -> Answer, limit: nat, nodes: seq<Did>, a: nat, b: nat, st: St)
    requires limit <= |st.buf| && a <= st.didIndex && b <= st.didIndex
    ensures Walk(answers, limit, nodes, a, st) == Walk(answers, limit, nodes, b, st)
    decreases nodes
  {
    if nodes != [] {
      var r := Node(answers, limit, nodes[0], a, st);
      assert r == Node(answers, limit, nodes[0], b, st);
      if r.code.Positive? { StartIrrelevant(answers, limit, nodes[1..], a, b, r.st); }
    }
  }

  lemma {:induction false} PassOverNode(answers: nat -> Answer, limit: nat, did: Did, start: nat, st: St)
    requires limit <= |st.buf| && st.didIndex < start && did.access.Readable?
    ensures Node(answers, limit, did, start, st) == Result(st.(didIndex := st.didIndex + 1), Positive)
  {
  }

  // Nodes that were read before the suspension are passed over.
  lemma {:induction false} PassOver(answers: nat -> Answer, limit: nat, nodes: seq<Did>, m: nat, start: nat, st: St)
    requires limit <= |st.buf| && m <= |nodes| && st.didIndex + m <= start
    requires forall i | 0 <= i < m :: nodes[i].access.Readable?
    ensures Walk(answers, limit, nodes, start, st)
         == Walk(answers, limit, nodes[m..], start, st.(didIndex := st.didIndex + m))
    decreases m
  {
    if m > 0 {
      hide Node;
      var next := st.(didIndex := st.didIndex + 1);
      PassOverNode(answers, limit, nodes[0], start, st);
      forall i | 0 <= i < m - 1 ensures nodes[1..][i].access.Readable? { assert nodes[1..][i] == nodes[i + 1]; }
      PassOver(answers, limit, nodes[1..], m - 1, start, next);
      assert nodes[1..][m - 1..] == nodes[m..];
      assert next.(didIndex := next.didIndex + (m - 1)) == st.(didIndex := st.didIndex + m);
    } else {
      assert nodes[0..] == nodes;
    }
  }

  lemma {:induction false} WalkSim(answers: nat -> Answer, limit: nat, nodes: seq<Did>, start: nat, st: St)
    requires limit <= |st.buf| && Clean(st)
    ensures var r, d := Walk(answers, limit, nodes, start, st), Walk(answers, limit, nodes, start, Norm(st));
            if r.code.Pending? then
              var m := r.st.didIndex - st.didIndex;
              && WaitsAt(nodes[m], r.st)
              && (forall i | 0 <= i < m :: nodes[i].access.Readable?)
              && Agree(Walk(answers, limit, nodes[m..], r.st.didIndex, Norm(r.st)), d)
            else Agree(r, d) && (r.code.Positive? ==> Clean(r.st))
    decreases nodes, 1
  {
    hide Node;
    if nodes != [] {
      NodeSim(answers, limit, nodes[0], start, st);
      NodeSim(answers, limit, nodes[0], start, Norm(st));
      var n := Node(answers, limit, nodes[0], start, st);
      var d := Node(answers, limit, nodes[0], start, Norm(st));
      if n.code.Positive? {
        WalkSim(answers, limit, nodes[1..], start, n.st);
        WalkSim(answers, limit, nodes[1..], start, d.st);
        var r := Walk(answers, limit, nodes, start, st);
        if r.code.Pending? {
          var m := r.st.didIndex - st.didIndex;
          assert nodes[1..][m - 1..] == nodes[m..];
          forall i | 0 <= i < m ensures nodes[i].access.Readable? {
            if i > 0 { assert nodes[i] == nodes[1..][i - 1]; }
          }
        }
      } else if n.code.Pending? {
        NodeSim(answers, limit, nodes[0], n.st.didIndex, Norm(n.st));
        WalkAgree(answers, limit, nodes, n.st.didIndex, Norm(n.st), start, Norm(st));
        assert nodes[0..] == nodes;
      }
    }
  }

  lemma {:induction false} WalkAgree(answers: nat -> Answer, limit: nat, nodes: seq<Did>, sa: nat, a: St, sb: nat,
                                     b: St)
    requires nodes != [] && limit <= |a.buf| && limit <= |b.buf| && Clean(a) && Clean(b)
    requires a.turns == b.turns == [] && sa <= a.didIndex && sb <= b.didIndex
    ensures Agree(Node(answers, limit, nodes[0], sa, a), Node(answers, limit, nodes[0], sb, b)) ==>
              Agree(Walk(answers, limit, nodes, sa, a), Walk(answers, limit, nodes, sb, b))
    decreases nodes, 0
  {
    var x, y := Node(answers, limit, nodes[0], sa, a), Node(answers, limit, nodes[0], sb, b);
    NodeSim(answers, limit, nodes[0], sa, a);
    NodeSim(answers, limit, nodes[0], sb, b);
    if x.code.Positive? && Agree(x, y) {
      WalkSim(answers, limit, nodes[1..], sa, x.st);
      WalkSim(answers, limit, nodes[1..], sb, y.st);
      StartIrrelevant(answers, limit, nodes[1..], sa, sb, Norm(x.st));
    }
  }

  // A suspended request: every index still points where the walk stopped.
  predicate Resumable(req: Request, st: St) {
    st.phase.Idle?
    || (&& st.reqIndex < req.Count() && req.Supported(st.reqIndex)
        && st.didIndex < |req.Nodes(st.reqIndex)|
        && WaitsAt(req.Nodes(st.reqIndex)[st.didIndex], st)
        && forall i | 0 <= i < st.didIndex :: req.Nodes(st.reqIndex)[i].access.Readable?)
  }

  // Running a suspended walk again, from the root and with the saved node index.
  lemma {:induction false} SuspendedWalk(answers: nat -> Answer, limit: nat, req: Request, i: nat, start: nat, st: St)
    requires limit <= |st.buf| && Clean(st) && st.didIndex == 0
    requires i < req.Count() && req.Supported(i)
    ensures var r := Walk(answers, limit, req.Nodes(i), start, st);
            var w := r.st;
            r.code.Pending? ==>
              && Resumable(req, w.(reqIndex := i)) && Norm(w.(reqIndex := i)) == Norm(w)
              && Agree(Walk(answers, limit, req.Nodes(i), w.didIndex, Norm(w).(didIndex := 0)),
                       Walk(answers, limit, req.Nodes(i), start, Norm(st)))
  {
    hide Walk, Preorder, Call;
    var nodes := req.Nodes(i);
    WalkSim(answers, limit, nodes, start, st);
    var w := Walk(answers, limit, nodes, start, st).st;
    var again := Norm(w).(didIndex := 0);
    if Walk(answers, limit, nodes, start, st).code.Pending? {
      PassOver(answers, limit, nodes, w.didIndex, w.didIndex, again);
      assert again.(didIndex := w.didIndex) == Norm(w);
    }
  }

  // What ReadFromSim says about one run.
  ghost predicate ReadFromAgrees(answers: nat -> Answer, limit: nat, req: Request, i: nat, start: nat, st: St)
    requires limit <= |st.buf|
  {
    var r, d := ReadFrom(answers, limit, req, i, start, st), ReadFrom(answers, limit, req, i, start, Norm(st));
    if r.code.Pending? then
      && i <= r.st.reqIndex && Resumable(req, r.st)
      && Agree(ReadFrom(answers, limit, req, r.st.reqIndex, r.st.didIndex, Norm(r.st).(didIndex := 0)), d)
    else Agree(r, d)
  }

  lemma {:induction false} ReadFromSim(answers: nat -> Answer, limit: nat, req: Request, i: nat, start: nat, st: St)
    requires limit <= |st.buf| && Clean(st) && st.didIndex == 0
    ensures ReadFromAgrees(answers, limit, req, i, start, st)
    decreases req.Count() - i, 1
  {
    if i < req.Count() {
      if !req.Supported(i) {
        ReadFromSim(answers, limit, req, i + 1, start, st);
      } else {
        WalkSim(answers, limit, req.Nodes(i), start, st);
        var w := Walk(answers, limit, req.Nodes(i), start, st);
        if w.code.Positive? {
          ReadFromContinues(answers, limit, req, i, start, st);
        } else if w.code.Pending? {
          SuspendedWalk(answers, limit, req, i, start, st);
          ReadFromAgree(answers, limit, req, i, w.st.didIndex, Norm(w.st).(didIndex := 0), start, Norm(st));
        }
      }
    }
  }

  lemma {:induction false} ReadFromContinues(answers: nat -> Answer, limit: nat, req: Request, i: nat, start: nat,
                                             st: St)
    requires limit <= |st.buf| && Clean(st) && st.didIndex == 0
    requires i < req.Count() && req.Supported(i)
    requires Walk(answers, limit, req.Nodes(i), start, st).code.Positive?
    ensures ReadFromAgrees(answers, limit, req, i, start, st)
    decreases req.Count() - i, 0
  {
    hide Walk, Preorder, Call, WaitsAt;
    WalkSim(answers, limit, req.Nodes(i), start, st);
    WalkSim(answers, limit, req.Nodes(i), start, Norm(st));
    var w := Walk(answers, limit, req.Nodes(i), start, st).st.(didIndex := 0);
    var d := Walk(answers, limit, req.Nodes(i), start, Norm(st)).st.(didIndex := 0);
    ReadFromSim(answers, limit, req, i + 1, 0, w);
    ReadFromSim(answers, limit, req, i + 1, 0, d);
    assert Norm(w) == Norm(d);
  }

  lemma {:induction false} ReadFromAgree(answers: nat -> Answer, limit: nat, req: Request, i: nat, sa: nat, a: St,
                                         sb: nat, b: St)
    requires i < req.Count() && req.Supported(i) && limit <= |a.buf| && limit <= |b.buf| && Clean(a) && Clean(b)
    requires a.turns == b.turns == [] && a.didIndex == b.didIndex == 0
    ensures Agree(Walk(answers, limit, req.Nodes(i), sa, a), Walk(answers, limit, req.Nodes(i), sb, b)) ==>
              Agree(ReadFrom(answers, limit, req, i, sa, a), ReadFrom(answers, limit, req, i, sb, b))
    decreases req.Count() - i, 0
  {
    hide Walk, Preorder, Call, Resumable;
    var x, y := Walk(answers, limit, req.Nodes(i), sa, a), Walk(answers, limit, req.Nodes(i), sb, b);
    WalkSim(answers, limit, req.Nodes(i), sa, a);
    WalkSim(answers, limit, req.Nodes(i), sb, b);
    if x.code.Positive? && Agree(x, y) {
      assert Norm(x.st.(didIndex := 0)) == Norm(x.st).(didIndex := 0);
      assert Norm(y.st.(didIndex := 0)) == Norm(y.st).(didIndex := 0);
      DirectRunsAgree(answers, limit, req, i + 1, x.st.(didIndex := 0), y.st.(didIndex := 0));
    }
  }

  lemma {:induction false} DirectRunsAgree(answers: nat -> Answer, limit: nat, req: Request, i: nat, a: St, b: St)
    requires limit <= |a.buf| && limit <= |b.buf| && Clean(a) && Clean(b) && a.didIndex == b.didIndex == 0
    requires a.turns == b.turns == [] && Norm(a) == Norm(b)
    ensures Agree(ReadFrom(answers, limit, req, i, 0, a), ReadFrom(answers, limit, req, i, 0, b))
    decreases req.Count() - i, 2
  {
    hide Walk, Preorder, ReadFrom, Resumable;
    ReadFromSim(answers, limit, req, i, 0, a);
    ReadFromSim(answers, limit, req, i, 0, b);
  }

  // The same final answer.
  predicate SameAnswer(x: Result, y: Result) {
    x.code == y.code && x.st.buf == y.st.buf && x.st.txPos == y.st.txPos && x.st.settled == y.st.settled
  }

  lemma {:induction false} CallSim(answers: nat -> Answer, limit: nat, req: Request, st: St)
    requires limit <= |st.buf| && Resumable(req, st)
    ensures var r, d := Call(answers, limit, req, st), Call(answers, limit, req, st.(turns := []));
            if r.code.Pending? then
              Resumable(req, r.st) && SameAnswer(Call(answers, limit, req, r.st.(turns := [])), d)
            else SameAnswer(r, d)
  {
    if req.LengthOk() {
      var entry, direct := Entry(st), Entry(st.(turns := []));
      var start := if st.phase.Idle? then 0 else st.didIndex;
      assert Norm(entry) == Norm(direct);
      ReadFromSim(answers, limit, req, entry.reqIndex, start, entry);
      ReadFromSim(answers, limit, req, entry.reqIndex, start, direct);
      var r := ReadFrom(answers, limit, req, entry.reqIndex, start, entry);
      if r.code.Pending? {
        var again := Entry(r.st.(turns := []));
        assert Norm(again) == Norm(r.st).(didIndex := 0);
        ReadFromSim(answers, limit, req, r.st.reqIndex, r.st.didIndex, again);
      }
    }
  }

  lemma {:induction false} ServeSim(answers: nat -> Answer, limit: nat, req: Request, st: St)
    requires limit <= |st.buf| && Resumable(req, st)
    ensures SameAnswer(Serve(answers, limit, req, st), Call(answers, limit, req, st.(turns := [])))
    decreases |st.turns|
  {
    CallSim(answers, limit, req, st);
    var r := Call(answers, limit, req, st);
    if r.code.Pending? { ServeSim(answers, limit, req, r.st); }
  }

  // Whatever callbacks suspend, and however often, a request ends with the response bytes,
  // length and code of the run in which every callback settles at once, and every callback
  // has settled just as many times.
  lemma {:induction false} SuspensionInvisible(answers: nat -> Answer, limit: nat, req: Request, st: St)
    requires limit <= |st.buf| && st.phase.Idle?
    ensures SameAnswer(Serve(answers, limit, req, st), Serve(answers, limit, req, st.(turns := [])))
  {
    ServeSim(answers, limit, req, st);
  }

  // ---------- The walk of a tree is the walk of its preorder list ----------

  lemma {:induction false} WalkConcat(answers: nat -> Answer, limit: nat, a: seq<Did>, b: seq<Did>, start: nat, st: St)
    requires limit <= |st.buf|
    ensures var r := Walk(answers, limit, a, start, st);
            Walk(answers, limit, a + b, start, st) == if r.code.Positive? then Walk(answers, limit, b, start, r.st)
              else r
    decreases a
  {
    if a == [] {
      assert a + b == b;
    } else {
      var n := Node(answers, limit, a[0], start, st);
      assert (a + b)[1..] == a[1..] + b;
      if n.code.Positive? { WalkConcat(answers, limit, a[1..], b, start, n.st); }
    }
  }

  lemma {:induction false} RefsPrefix(did: Did, i: nat, n: nat)
    requires i <= n <= |did.refs|
    ensures PreorderOfRefs(did, i) <= PreorderOfRefs(did, n)
    decreases n - i
  {
    if i < n { RefsPrefix(did, i, n - 1); }
  }

  lemma {:induction false} AcquireUnsupported(answers: nat -> Answer, sig: DidSignal, st: St)
    requires sig.port.Unsupported?
    ensures forall first: nat, len: nat | first + len <= |st.buf| ::
              Acquire(answers, sig, first, len, st) == Acquired(st, ENotOk)
  {
  }

  lemma {:induction false} SignalsUnfold(answers: nat -> Answer, limit: nat, signals: seq<DidSignal>, i: nat, st: St)
    requires limit <= |st.buf| && i < |signals|
    ensures ReadSignals(answers, limit, signals, i, st)
         == var r := SignalStep(answers, limit, signals[i], i, st);
            if r.code.Positive? then ReadSignals(answers, limit, signals, i + 1, r.st) else r
  {
  }

  // ---------- The service ----------

  class DidReader {
    const answers: nat -> Answer
    const limit: nat
    const buf: array<Byte>
    var txPos: nat
    var phase: Phase
    var signalIndex: nat
    var dataLen: nat
    var startPos: nat
    var didIndex: nat
    var reqIndex: nat
    var pendingDid: nat
    var settled: nat
    var turns: seq<Turn>

    ghost function State(): St
      reads this, buf
    {
      St(buf[..], txPos, phase, signalIndex, dataLen, startPos, didIndex, reqIndex, pendingDid, settled, turns)
    }

    // The response buffer is the first limit bytes; there may be memory behind it. The next
    // write is inside the buffer.
    ghost predicate Valid()
      reads this
    {
      1 <= txPos <= limit <= buf.Length
    }

    constructor (answers: nat -> Answer, buf: array<Byte>, limit: nat, turns: seq<Turn>)
      requires 1 <= limit <= buf.Length
      ensures Valid() && State() == St(buf[..], 1, Idle, 0, 0, 0, 0, 0, 0, 0, turns)
      ensures this.answers == answers && this.limit == limit && this.buf == buf
    {
      this.answers, this.buf, this.limit, this.turns := answers, buf, limit, turns;
      txPos, phase, signalIndex, dataLen, startPos := 1, Idle, 0, 0, 0;
      didIndex, reqIndex, pendingDid, settled := 0, 0, 0, 0;
    }

    // The surroundings: one call of a callback that may suspend.
    method CallMaySuspend() returns (suspends: bool, answer: Answer, stale: Word)
      modifies this`turns, this`settled
      ensures suspends == Suspends(old(State())) && answer == answers(old(settled))
      ensures State() == if suspends then Suspended(old(State())) else Settled(old(State()))
      ensures suspends ==> stale == old(turns)[0].stale
    {
      suspends := turns != [] && turns[0].Suspend?;
      answer := answers(settled);
      stale := if suspends then turns[0].stale else Zero();
      if !suspends { settled := settled + 1; }
      if turns != [] { turns := turns[1..]; }
    }

    method WriteBytes(at: nat, data: seq<Byte>)
      requires at + |data| <= buf.Length
      modifies buf
      ensures buf[..] == Write(old(buf[..]), at, data)
    {
      forall i | 0 <= i < |data| { buf[at + i] := data[i]; }
    }

    method AcquireSynch(sig: DidSignal, first: nat, len: nat) returns (result: Ret)
      requires (sig.port.Synch? || sig.port.EcuSignal?) && first + len <= buf.Length
      modifies this`settled, buf
      ensures Acquire(answers, sig, first, len, old(State())) == Acquired(State(), result)
    {
      result := ENotOk;
      if sig.hasRead {
        var answer := answers(settled);
        settled := settled + 1;
        if answer.ok {
          WriteBytes(first, FitTo(answer.data, len, ZeroByte()));
          result := EOk;
        }
      }
    }

    method AcquireAsynch(sig: DidSignal, first: nat, len: nat) returns (result: Ret)
      requires sig.port.Asynch? && first + len <= buf.Length
      modifies this`settled, this`turns, buf
      ensures Acquire(answers, sig, first, len, old(State())) == Acquired(State(), result)
    {
      result := ENotOk;
      if sig.hasRead {
        var suspends, answer, _ := CallMaySuspend();
        if suspends {
          result := EPending;
        } else if answer.ok {
          WriteBytes(first, FitTo(answer.data, len, ZeroByte()));
          result := EOk;
        }
      }
    }

    method AcquireSenderReceiver(sig: DidSignal, first: nat, len: nat) returns (inside: bool, result: Ret)
      requires sig.port.SenderReceiver? && sig.data.Valid() && first + len <= buf.Length
      modifies this`settled, this`turns, buf
      ensures Acquire(answers, sig, first, len, old(State())) == if inside then Acquired(State(), result) else Outside
      ensures !inside ==> State() == old(State())
    {
      var data, at := sig.data, sig.bitPosition;
      if !WindowInside(data.endian, at, data.bits, startPos, buf.Length) { return false, ENotOk; }
      if data.endian.Undefined? {
        var answer := answers(settled);
        settled := settled + 1;
        inside, result := ReadSRSignal(data, at, answer.raw, if answer.ok then EOk else ENotOk, buf, startPos);
      } else {
        var suspends, answer, stale := CallMaySuspend();
        var ret := if suspends then EPending else if answer.ok then EOk else ENotOk;
        inside, result := ReadSRSignal(data, at, if suspends then stale else answer.raw, ret, buf, startPos);
      }
    }

    // Reads the data of a signal into its place.
    method FetchData(sig: DidSignal, i: nat, len: nat) returns (code: Nrc)
      requires Valid() && sig.data.Valid()
      modifies this`settled, this`turns, this`phase, this`dataLen, this`signalIndex, this`txPos, buf
      ensures Result(State(), code) == Fetch(answers, limit, sig, i, len, old(State()))
      ensures Valid() && startPos == old(startPos)
    {
      hide Acquire;
      var first := startPos + sig.bitPosition / 8;
      if first + len > limit { return RequestOutOfRange; }
      var inside, result := true, ENotOk;
      match sig.port {
        case Synch | EcuSignal => result := AcquireSynch(sig, first, len);
        case Asynch => result := AcquireAsynch(sig, first, len);
        case SenderReceiver => inside, result := AcquireSenderReceiver(sig, first, len);
        case Unsupported => AcquireUnsupported(answers, sig, State());
      }
      if !inside { return LeftBuffer; }
      assert Acquired(State(), result) == Acquire(answers, sig, first, len, old(State()));
      code := ConcludeFetch(result, i, len, first + len);
    }

    method ConcludeFetch(result: Ret, i: nat, len: nat, end: nat) returns (code: Nrc)
      requires Valid() && end <= limit
      modifies this`phase, this`dataLen, this`signalIndex, this`txPos
      ensures Result(State(), code) == Conclude(old(State()), result, i, len, end)
      ensures Valid()
    {
      match result {
        case EPending =>
          phase, dataLen, signalIndex := ReadData, len, i;
          code := Pending;
        case ENotOk =>
          code := ConditionsNotCorrect;
        case EOk =>
          phase := Idle;
          if txPos < end { txPos := end; }
          code := Positive;
      }
    }

    method CheckCondition(sig: DidSignal) returns (result: Ret, positive: bool)
      requires sig.port.Asynch? || sig.port.Synch?
      modifies this`settled, this`turns, this`phase
      ensures result.EPending? <==> sig.hasCheck && sig.port.Asynch? && Suspends(old(State()))
      ensures result.EOk? <==> sig.hasCheck && !result.EPending? && answers(old(settled)).ok
      ensures result.EOk? ==> positive == answers(old(settled)).positive
      ensures var st := old(State());
              State() == if !sig.hasCheck then (if sig.port.Asynch? then st.(phase := Idle) else st)
                         else if result.EPending? then Suspended(st).(phase := CondCheck)
                         else if sig.port.Asynch? then Settled(st).(phase := Idle) else Called(st)
    {
      result, positive := ENotOk, true;
      if sig.hasCheck {
        var answer := answers(settled);
        if sig.port.Asynch? {
          var suspends, _, _ := CallMaySuspend();
          result := if suspends then EPending else if answer.ok then EOk else ENotOk;
        } else {
          settled := settled + 1;
          result := if answer.ok then EOk else ENotOk;
        }
        positive := answer.positive;
      }
      if sig.port.Asynch? {
        phase := if result.EPending? then CondCheck else Idle;
      }
    }

    // Length, then data, of a signal whose condition holds.
    method ReadChecked(sig: DidSignal, i: nat) returns (code: Nrc)
      requires Valid() && sig.data.Valid()
      modifies this, buf
      ensures Result(State(), code) == ReadPhase(answers, limit, sig, i, old(State()))
      ensures Valid() && startPos == old(startPos)
    {
      hide Fetch;
      var len := 0;
      if sig.fixedLength || sig.port.SenderReceiver? {
        len := GetNofAffectedBytes(sig.data.endian, sig.bitPosition, sig.data.bits);
      } else if sig.hasLength {
        if phase.Idle? {
          var answer := answers(settled);
          settled := settled + 1;
          if !answer.ok { return ConditionsNotCorrect; }
          len := answer.len;
        } else {
          len := dataLen;
        }
      }
      code := FetchData(sig, i, len);
    }

    // The body of the signal loop.
    method ReadSignal(sig: DidSignal, i: nat) returns (code: Nrc)
      requires Valid() && sig.data.Valid()
      modifies this, buf
      ensures Result(State(), code) == SignalStep(answers, limit, sig, i, old(State()))
      ensures Valid() && startPos == old(startPos)
    {
      var result, positive := EOk, true;
      if !phase.ReadData? && !sig.port.EcuSignal? && !sig.port.SenderReceiver? {
        if sig.port.Unsupported? {
          result := ENotOk;
        } else {
          result, positive := CheckCondition(sig);
        }
      }
      if result.EOk? && positive {
        code := ReadChecked(sig, i);
      } else if result.EPending? {
        signalIndex := i;
        code := Pending;
      } else {
        code := ConditionsNotCorrect;
      }
    }

    method BeginDid(did: Did)
      requires Valid() && txPos + did.size + 2 <= limit
      modifies this`txPos, this`startPos, buf
      ensures State() == Begin(did, old(State())) && Valid()
    {
      WriteBytes(txPos, IdBytes(did.id));
      txPos := txPos + 2;
      startPos := txPos;
      WriteBytes(txPos, ZeroBytes(did.size));
    }

    // The loop over the signals of a DID.
    method ReadSignalLoop(did: Did) returns (code: Nrc)
      requires Valid() && forall i | 0 <= i < |did.signals| :: did.signals[i].data.Valid()
      modifies this, buf
      ensures Result(State(), code) == ReadSignals(answers, limit, did.signals, old(signalIndex), old(State()))
      ensures Valid()
    {
      hide SignalStep;
      ghost var all := ReadSignals(answers, limit, did.signals, signalIndex, State());
      code := Positive;
      var i := signalIndex;
      while i < |did.signals| && code.Positive?
        invariant Valid()
        invariant all == if code.Positive? then ReadSignals(answers, limit, did.signals, i, State())
                         else Result(State(), code)
        decreases |did.signals| - i, if code.Positive? then 1 else 0
      {
        ghost var cur := State();
        code := ReadSignal(did.signals[i], i);
        SignalsUnfold(answers, limit, did.signals, i, cur);
        i := i + 1;
      }
    }

    method GetData(did: Did) returns (code: Nrc)
      requires Valid() && forall i | 0 <= i < |did.signals| :: did.signals[i].data.Valid()
      modifies this, buf
      ensures Result(State(), code) == GetDidData(answers, limit, did, old(State()))
      ensures Valid()
    {
      if phase.Idle? {
        if txPos + did.size + 2 > limit { return ResponseTooLong; }
        BeginDid(did);
      }
      code := ReadSignalLoop(did);
    }

    // readDidData up to its loop over the referenced DIDs.
    method ReadNode(did: Did, start: nat) returns (code: Nrc)
      requires Valid() && forall i | 0 <= i < |did.signals| :: did.signals[i].data.Valid()
      modifies this, buf
      ensures Result(State(), code) == Node(answers, limit, did, start, old(State()))
      ensures Valid()
    {
      code := Positive;
      match did.access {
        case NotConfigured | NotInSession => code := RequestOutOfRange;
        case SecurityLocked => code := SecurityAccessDenied;
        case Readable =>
          if !did.onlyRefs && didIndex >= start {
            code := GetData(did);
            if code.Pending? {
              pendingDid := did.id;
            } else if code.Positive? {
              didIndex := didIndex + 1;
              signalIndex := 0;
            }
          } else {
            if didIndex >= start {
              if txPos + 2 <= limit {
                WriteBytes(txPos, IdBytes(did.id));
                txPos := txPos + 2;
              } else {
                code := ResponseTooLong;
              }
            }
            didIndex := didIndex + 1;
          }
      }
    }

    method ReadDidData(did: Did, start: nat) returns (code: Nrc)
      requires Valid() && ValidDid(did)
      modifies this, buf
      ensures Result(State(), code) == Walk(answers, limit, Preorder(did), start, old(State()))
      ensures Valid()
      decreases did
    {
      hide Node;
      ghost var s0 := State();
      code := ReadNode(did, start);
      var i := 0;
      while i < |did.refs| && code.Positive?
        invariant 0 <= i <= |did.refs| && Valid()
        invariant Result(State(), code) == Walk(answers, limit, [did] + PreorderOfRefs(did, i), start, s0)
      {
        WalkConcat(answers, limit, [did] + PreorderOfRefs(did, i), Preorder(did.refs[i]), start, s0);
        assert [did] + PreorderOfRefs(did, i + 1) == [did] + PreorderOfRefs(did, i) + Preorder(did.refs[i]);
        code := ReadDidData(did.refs[i], start);
        i := i + 1;
      }
      RefsPrefix(did, i, |did.refs|);
      ghost var seen := [did] + PreorderOfRefs(did, i);
      assert Preorder(did) == seen + Preorder(did)[|seen|..];
      WalkConcat(answers, limit, seen, Preorder(did)[|seen|..], start, s0);
    }

    // One requested identifier.
    method ReadRequested(req: Request, i: nat, from: nat) returns (code: Nrc, start: nat)
      requires Valid() && i < req.Count() && req.Supported(i) && ValidDid(req.lookup[req.Id(i)])
      modifies this, buf
      ensures ReadFrom(answers, limit, req, i, from, old(State()))
           == if code.Positive? then ReadFrom(answers, limit, req, i + 1, start, State()) else Result(State(), code)
      ensures Valid()
    {
      hide Walk;
      code := ReadDidData(req.lookup[req.Id(i)], from);
      start := from;
      if code.Pending? {
        reqIndex := i;
      } else {
        start := 0;
        if code.Positive? { didIndex := 0; }
      }
    }

    // The loop over the requested identifiers.
    method ReadDids(req: Request, from: nat) returns (code: Nrc, noneSupported: bool)
      requires Valid() && forall id | id in req.lookup :: ValidDid(req.lookup[id])
      modifies this, buf
      ensures Result(State(), code) == ReadFrom(answers, limit, req, old(reqIndex), from, old(State()))
      ensures Valid() && noneSupported == NoneSupported(req, old(reqIndex)) && (!code.Positive? ==> !noneSupported)
    {
      hide Walk;
      ghost var all := ReadFrom(answers, limit, req, reqIndex, from, State());
      code, noneSupported := Positive, true;
      var i, start := reqIndex, from;
      while i < req.Count() && code.Positive?
        invariant old(reqIndex) <= i && Valid()
        invariant noneSupported <==> forall j | old(reqIndex) <= j < i && j < req.Count() :: !req.Supported(j)
        invariant !code.Positive? ==> !noneSupported
        invariant all == if code.Positive? then ReadFrom(answers, limit, req, i, start, State())
                  else Result(State(), code)
        decreases req.Count() - i, if code.Positive? then 1 else 0
      {
        if req.Supported(i) {
          noneSupported := false;
          code, start := ReadRequested(req, i, start);
        }
        i := i + 1;
      }
    }

    // The local variables of a call, fresh or restored.
    method EnterCall() returns (start: nat)
      requires Valid()
      modifies this
      ensures State() == Entry(old(State())) && Valid()
      ensures start == if old(phase).Idle? then 0 else old(didIndex)
    {
      start := 0;
      if phase.Idle? {
        txPos, signalIndex, dataLen, startPos, reqIndex := 1, 0, 0, 0, 0;
      } else {
        start := didIndex;
      }
      didIndex := 0;
    }

    // One call of the service function.
    method ReadDataByIdentifier(req: Request) returns (code: Nrc, length: nat)
      requires Valid() && forall id | id in req.lookup :: ValidDid(req.lookup[id])
      modifies this, buf
      ensures Result(State(), code) == Call(answers, limit, req, old(State()))
      ensures Valid() && (code.Positive? ==> length == txPos <= limit)
    {
      if !req.LengthOk() {
        phase, didIndex := Idle, 0;
        return IncorrectLength, 0;
      }
      var start := EnterCall();
      var noneSupported;
      code, noneSupported := ReadDids(req, start);
      length := 0;
      assert Result(State(), code)
          == ReadFrom(answers, limit, req, Entry(old(State())).reqIndex, start, Entry(old(State())));
      if noneSupported { code := RequestOutOfRange; }
      if code.Positive? { length := txPos; }
      if !code.Pending? { phase, didIndex := Idle, 0; }
    }

    // The request, called again by the main function until it has ended.
    method ServeRequest(req: Request) returns (code: Nrc, length: nat)
      requires Valid() && phase.Idle? && forall id | id in req.lookup :: ValidDid(req.lookup[id])
      modifies this, buf
      ensures Result(State(), code) == Serve(answers, limit, req, old(State()))
      ensures Valid() && (code.Positive? ==> length == txPos <= limit)
    {
      ghost var s0 := State();
      code, length := ReadDataByIdentifier(req);
      while code.Pending?
        invariant Valid() && (code.Positive? ==> length == txPos <= limit)
        invariant Serve(answers, limit, req, s0)
                  == if code.Pending? then Serve(answers, limit, req, State()) else Result(State(), code)
        decreases |turns|, if code.Pending? then 1 else 0
      {
        code, length := ReadDataByIdentifier(req);
      }
    }
  }
}
