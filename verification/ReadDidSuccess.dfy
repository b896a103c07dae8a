/** When a ReadDataByIdentifier request is answered: exactly if every DID on the way can be read, every
    callback agrees, and everything has room. */
module ReadDidSuccess {
  import opened Bits
  import opened Prelude
  import opened SRSignal
  import opened ReadDid
  import opened ReadDidGrowth
  import opened ReadDidValues
  import opened ReadDidLayout
  import opened ReadDidRefusals

  // The signal can be had, its data area starting at start and its first callback being number at.
  // size: of the buffer, with the memory behind it.
  predicate Succeeds(answers: nat -> Answer, limit: nat, size: nat, sig: DidSignal, start: nat, at: nat)
    requires sig.data.Valid()
  {
    var checked := sig.port.Synch? || sig.port.Asynch?;
    && !sig.port.Unsupported?
    && (checked ==> sig.hasCheck && answers(at).ok && answers(at).positive)
    && (!sig.port.SenderReceiver? && !sig.fixedLength && sig.hasLength ==> answers(at + if checked then 1 else 0).ok)
    && start + FirstByte(sig) + LengthOf(answers, sig, at) <= limit
    && answers(ReadAt(sig, at)).ok
    && if sig.port.SenderReceiver?
       then !sig.data.endian.Undefined? && WindowInside(sig.data.endian, sig.bitPosition, sig.data.bits, start, size)
       else sig.hasRead
  }

  lemma {:induction false} FetchSucceeds(answers: nat -> Answer, limit: nat, sig: DidSignal, i: nat, len: nat, st: St)
    requires limit <= |st.buf| && st.turns == [] && sig.data.Valid()
    ensures Fetch(answers, limit, sig, i, len, st).code.Positive?
       <==> && !sig.port.Unsupported? && st.startPos + FirstByte(sig) + len <= limit && answers(st.settled).ok
            && if sig.port.SenderReceiver?
               then !sig.data.endian.Undefined?
                    && WindowInside(sig.data.endian, sig.bitPosition, sig.data.bits, st.startPos, |st.buf|)
               else sig.hasRead
  {
    hide PackSignal, FitTo, Write, WindowInside;
  }

  lemma {:induction false} StepSucceeds(answers: nat -> Answer, limit: nat, sig: DidSignal, i: nat, st: St)
    requires limit <= |st.buf| && st.turns == [] && st.phase.Idle? && sig.data.Valid()
    ensures SignalStep(answers, limit, sig, i, st).code.Positive?
       <==> Succeeds(answers, limit, |st.buf|, sig, st.startPos, st.settled)
  {
    hide Fetch, WindowInside, GetNofAffectedBytes;
    var fixed := GetNofAffectedBytes(sig.data.endian, sig.bitPosition, sig.data.bits);
    var checked := if sig.port.Synch? then Called(st) else Settled(st).(phase := Idle);
    var at := if sig.port.Synch? || sig.port.Asynch? then checked else st;
    FetchSucceeds(answers, limit, sig, i, fixed, at);
    FetchSucceeds(answers, limit, sig, i, 0, at);
    FetchSucceeds(answers, limit, sig, i, answers(at.settled).len, Called(at));
  }

  // The write position after the first n signals.
  function DataEnd(answers: nat -> Answer, signals: seq<DidSignal>, start: nat, base: nat, n: nat): nat
    requires n <= |signals|
  {
    if n == 0 then start
    else MaxOf(DataEnd(answers, signals, start, base, n - 1), EndOf(answers, signals, start, base, n - 1))
  }

  // All signals from number i on.
  predicate SignalsSucceed(answers: nat -> Answer, limit: nat, size: nat, signals: seq<DidSignal>, start: nat,
                           base: nat, i: nat)
    requires forall k | 0 <= k < |signals| :: signals[k].data.Valid()
  {
    forall k | i <= k < |signals| ::
      Succeeds(answers, limit, size, signals[k], start, CallAt(signals, base, k))
  }

  lemma {:induction false} SignalsReadExactly(answers: nat -> Answer, limit: nat, signals: seq<DidSignal>, i: nat,
                                              st: St, base: nat)
    requires limit <= |st.buf| && st.turns == [] && st.phase.Idle? && i <= |signals|
    requires forall k | 0 <= k < |signals| :: signals[k].data.Valid()
    requires st.settled == CallAt(signals, base, i) && st.txPos == DataEnd(answers, signals, st.startPos, base, i)
    ensures var r := ReadSignals(answers, limit, signals, i, st);
            && (r.code.Positive? <==> SignalsSucceed(answers, limit, |st.buf|, signals, st.startPos, base, i))
            && (r.code.Positive? ==>
                  && r.st.settled == CallAt(signals, base, |signals|) && r.st.turns == [] && r.st.phase.Idle?
                  && r.st.txPos == DataEnd(answers, signals, st.startPos, base, |signals|))
    decreases |signals| - i
  {
    hide SignalStep, Succeeds, LengthOf, CallsOf, PackSignal;
    if i < |signals| {
      StepSucceeds(answers, limit, signals[i], i, st);
      StepEffect(answers, limit, signals[i], i, st);
      var r := SignalStep(answers, limit, signals[i], i, st);
      if r.code.Positive? {
        StepEnds(answers, signals, i, st, r.st, base);
        hide Effect, DataEnd, CallAt;
        SignalsReadExactly(answers, limit, signals, i + 1, r.st, base);
      }
    }
  }

  lemma {:induction false} StepEnds(answers: nat -> Answer, signals: seq<DidSignal>, i: nat, a: St, b: St, base: nat)
    requires i < |signals| && a.settled == CallAt(signals, base, i) && Effect(answers, signals[i], a, b)
    requires a.txPos == DataEnd(answers, signals, a.startPos, base, i)
    ensures b.settled == CallAt(signals, base, i + 1) && b.startPos == a.startPos
    ensures b.txPos == DataEnd(answers, signals, a.startPos, base, i + 1)
  {
    hide PackSignal, GetNofAffectedBytes, CallsOf;
  }

  // ---------- One DID, and all of them ----------

  predicate NodeSucceeds(answers: nat -> Answer, limit: nat, size: nat, did: Did, p: nat, base: nat)
    requires SignalsOk(did)
  {
    && did.access.Readable?
    && if did.onlyRefs then p + 2 <= limit
       else p + 2 + did.size <= limit && SignalsSucceed(answers, limit, size, did.signals, p + 2, base, 0)
  }

  function NodeEnd(answers: nat -> Answer, did: Did, p: nat, base: nat): nat {
    if did.onlyRefs then p + 2 else DataEnd(answers, did.signals, p + 2, base, |did.signals|)
  }

  // The DIDs one behind the other, the first at position p with its first callback number base.
  ghost predicate AllSucceed(answers: nat -> Answer, limit: nat, size: nat, nodes: seq<Did>, p: nat,
                             base: nat)
    requires NodesOk(nodes)
    decreases nodes
  {
    nodes == []
    || (&& NodeSucceeds(answers, limit, size, nodes[0], p, base)
        && AllSucceed(answers, limit, size, nodes[1..], NodeEnd(answers, nodes[0], p, base),
                      base + CallsOfNode(nodes[0])))
  }

  function EndOfAll(answers: nat -> Answer, nodes: seq<Did>, p: nat, base: nat): (nat, nat)
    decreases nodes
  {
    if nodes == [] then (p, base)
    else EndOfAll(answers, nodes[1..], NodeEnd(answers, nodes[0], p, base), base + CallsOfNode(nodes[0]))
  }

  lemma {:induction false} NodeReadExactly(answers: nat -> Answer, limit: nat, did: Did, st: St)
    requires limit <= |st.buf| && SignalsOk(did) && st.phase.Idle? && st.turns == [] && st.signalIndex == 0
    ensures var r := Node(answers, limit, did, 0, st);
            && (r.code.Positive? <==> NodeSucceeds(answers, limit, |st.buf|, did, st.txPos, st.settled))
            && (r.code.Positive? ==>
                  && r.st.txPos == NodeEnd(answers, did, st.txPos, st.settled)
                  && r.st.settled == st.settled + CallsOfNode(did)
                  && r.st.turns == [] && r.st.signalIndex == 0 && r.st.phase.Idle?)
  {
    hide ReadSignals, SignalsSucceed, IdBytes;
    if !did.onlyRefs && st.txPos + did.size + 2 <= limit {
      SignalsReadExactly(answers, limit, did.signals, 0, Begin(did, st), st.settled);
    }
  }

  lemma {:induction false} WalkReadExactly(answers: nat -> Answer, limit: nat, nodes: seq<Did>, st: St)
    requires limit <= |st.buf| && NodesOk(nodes) && st.phase.Idle? && st.turns == [] && st.signalIndex == 0
    ensures var r := Walk(answers, limit, nodes, 0, st);
            && (r.code.Positive? <==> AllSucceed(answers, limit, |st.buf|, nodes, st.txPos, st.settled))
            && (r.code.Positive? ==>
                  && (r.st.txPos, r.st.settled) == EndOfAll(answers, nodes, st.txPos, st.settled)
                  && r.st.turns == [] && r.st.signalIndex == 0 && r.st.phase.Idle?)
    decreases nodes
  {
    hide Node, NodeSucceeds, NodeEnd, CallsOfNode;
    if nodes != [] {
      assert SignalsOk(nodes[0]);
      NodeReadExactly(answers, limit, nodes[0], st);
      assert NodesOk(nodes[1..]) by {
        forall i | 0 <= i < |nodes[1..]| ensures SignalsOk(nodes[1..][i]) { assert nodes[1..][i] == nodes[i + 1]; }
      }
      var r := Node(answers, limit, nodes[0], 0, st);
      if r.code.Positive? { WalkReadExactly(answers, limit, nodes[1..], r.st); }
    }
  }

  lemma {:induction false} AllSucceedJoins(answers: nat -> Answer, limit: nat, size: nat, a: seq<Did>, b: seq<Did>,
                                           p: nat, base: nat)
    requires NodesOk(a) && NodesOk(b) && NodesOk(a + b)
    ensures var end := EndOfAll(answers, a, p, base);
            && (AllSucceed(answers, limit, size, a + b, p, base)
                <==> AllSucceed(answers, limit, size, a, p, base) && AllSucceed(answers, limit, size, b, end.0, end.1))
            && EndOfAll(answers, a + b, p, base) == EndOfAll(answers, b, end.0, end.1)
    decreases a
  {
    hide NodeSucceeds, NodeEnd, CallsOfNode;
    if a == [] {
      assert a + b == b;
    } else {
      assert (a + b)[1..] == a[1..] + b && (a + b)[0] == a[0];
      assert NodesOk(a[1..]) by {
        forall i | 0 <= i < |a[1..]| ensures SignalsOk(a[1..][i]) { assert a[1..][i] == a[i + 1]; }
      }
      assert NodesOk((a + b)[1..]) by {
        forall i | 0 <= i < |(a + b)[1..]| ensures SignalsOk((a + b)[1..][i]) {
          assert (a + b)[1..][i] == (a + b)[i + 1];
        }
      }
      AllSucceedJoins(answers, limit, size, a[1..], b, NodeEnd(answers, a[0], p, base), base + CallsOfNode(a[0]));
    }
  }

  lemma {:induction false} RequestReadExactly(answers: nat -> Answer, limit: nat, req: Request, i: nat, st: St)
    requires limit <= |st.buf| && LookupOk(req) && st.phase.Idle? && st.turns == [] && st.signalIndex == 0
    ensures NodesOk(Visited(req, i))
    ensures var r := ReadFrom(answers, limit, req, i, 0, st);
            && (r.code.Positive? <==> AllSucceed(answers, limit, |st.buf|, Visited(req, i), st.txPos, st.settled))
            && (r.code.Positive? ==>
                  (r.st.txPos, r.st.settled) == EndOfAll(answers, Visited(req, i), st.txPos, st.settled))
    decreases req.Count() - i
  {
    hide Walk, Preorder, ValidDid, NodesOk, AllSucceed, EndOfAll;
    VisitedOk(req, i);
    if i >= req.Count() {
      NothingToRead(answers, limit, |st.buf|, st.txPos, st.settled);
    } else {
      VisitedOk(req, i + 1);
      if !req.Supported(i) {
        assert Visited(req, i) == Visited(req, i + 1);
        RequestReadExactly(answers, limit, req, i + 1, st);
      } else {
        PreorderOk(req.lookup[req.Id(i)]);
        WalkReadExactly(answers, limit, req.Nodes(i), st);
        AllSucceedJoins(answers, limit, |st.buf|, req.Nodes(i), Visited(req, i + 1), st.txPos, st.settled);
        var w := Walk(answers, limit, req.Nodes(i), 0, st);
        if w.code.Positive? { RequestReadExactly(answers, limit, req, i + 1, w.st.(didIndex := 0)); }
      }
    }
  }

  lemma {:induction false} NothingToRead(answers: nat -> Answer, limit: nat, size: nat, p: nat, base: nat)
    ensures NodesOk([]) && AllSucceed(answers, limit, size, [], p, base) && EndOfAll(answers, [], p, base) == (p, base)
  {
  }

  lemma {:induction false} NamesConfigured(req: Request)
    requires Wellformed(req.bytes)
    ensures !NoneSupported(req, 0)
       <==> exists i :: 0 <= i && 2 + 2 * i < |req.bytes| && Named(req.bytes, i) in req.lookup
  {
    if i :| 0 <= i < req.Count() && req.Supported(i) { assert Named(req.bytes, i) in req.lookup; }
    if i :| 0 <= i && 2 + 2 * i < |req.bytes| && Named(req.bytes, i) in req.lookup { assert req.Supported(i); }
  }

  // However often it is suspended, a request is answered if and only if it consists of whole
  // identifiers, names a configured DID, and every DID it visits, one behind the other from the second
  // byte of the response on, can be read with the callbacks that are its own. The response then ends
  // where the last of them ends.
  lemma {:induction false} AnsweredExactly(answers: nat -> Answer, limit: nat, req: Request, st: St)
    requires 1 <= limit <= |st.buf| && st.phase.Idle? && LookupOk(req)
    ensures NodesOk(Visited(req, 0))
    ensures var r := Serve(answers, limit, req, st);
            && (r.code.Positive? <==>
                  && Wellformed(req.bytes)
                  && (exists i :: 0 <= i && 2 + 2 * i < |req.bytes| && Named(req.bytes, i) in req.lookup)
                  && AllSucceed(answers, limit, |st.buf|, Visited(req, 0), 1, st.settled))
            && (r.code.Positive? ==> r.st.txPos == EndOfAll(answers, Visited(req, 0), 1, st.settled).0)
  {
    VisitedOk(req, 0);
    hide ReadFrom, Visited, AllSucceed, NodesOk, EndOfAll;
    if Wellformed(req.bytes) {
      EndsAsDirect(answers, limit, req, st);
      SuspensionInvisible(answers, limit, req, st);
      RequestReadExactly(answers, limit, req, 0, Entry(st.(turns := [])));
      NamesConfigured(req);
    } else {
      Malformed(answers, limit, req, st);
    }
  }

  // ---------- What the first signal that cannot be had is answered with ----------

  // Its condition and its length come first, then its place in the response, then its data.
  function CodeOf(answers: nat -> Answer, limit: nat, size: nat, sig: DidSignal, start: nat, at: nat): Nrc
    requires sig.data.Valid()
  {
    var checked := sig.port.Synch? || sig.port.Asynch?;
    if sig.port.Unsupported? || (checked && !(sig.hasCheck && answers(at).ok && answers(at).positive))
    then ConditionsNotCorrect
    else if !sig.port.SenderReceiver? && !sig.fixedLength && sig.hasLength && !answers(at + if checked then 1 else 0).ok
    then ConditionsNotCorrect
    else if start + FirstByte(sig) + LengthOf(answers, sig, at) > limit then RequestOutOfRange
    else if sig.port.SenderReceiver? && !WindowInside(sig.data.endian, sig.bitPosition, sig.data.bits, start, size)
    then LeftBuffer
    else if Succeeds(answers, limit, size, sig, start, at) then Positive else ConditionsNotCorrect
  }

  lemma {:induction false} FetchCode(answers: nat -> Answer, limit: nat, sig: DidSignal, i: nat, len: nat, st: St)
    requires limit <= |st.buf| && st.turns == [] && sig.data.Valid()
    ensures var inside := WindowInside(sig.data.endian, sig.bitPosition, sig.data.bits, st.startPos, |st.buf|);
            var r := Fetch(answers, limit, sig, i, len, st);
            && (st.startPos + FirstByte(sig) + len > limit ==> r.code.RequestOutOfRange?)
            && (st.startPos + FirstByte(sig) + len <= limit && !r.code.Positive? ==>
                  r.code == if sig.port.SenderReceiver? && !inside then LeftBuffer else ConditionsNotCorrect)
  {
    hide PackSignal, FitTo, Write, WindowInside;
  }

  lemma {:induction false} StepCode(answers: nat -> Answer, limit: nat, sig: DidSignal, i: nat, st: St)
    requires limit <= |st.buf| && st.turns == [] && st.phase.Idle? && sig.data.Valid()
    ensures SignalStep(answers, limit, sig, i, st).code
         == CodeOf(answers, limit, |st.buf|, sig, st.startPos, st.settled)
  {
    hide Fetch, WindowInside, GetNofAffectedBytes;
    StepSucceeds(answers, limit, sig, i, st);
    hide Succeeds;
    var fixed := GetNofAffectedBytes(sig.data.endian, sig.bitPosition, sig.data.bits);
    var checked := if sig.port.Synch? then Called(st) else Settled(st).(phase := Idle);
    var at := if sig.port.Synch? || sig.port.Asynch? then checked else st;
    FetchCode(answers, limit, sig, i, fixed, at);
    FetchCode(answers, limit, sig, i, 0, at);
    FetchCode(answers, limit, sig, i, answers(at.settled).len, Called(at));
  }

  lemma {:induction false} SignalsCode(answers: nat -> Answer, limit: nat, signals: seq<DidSignal>, i: nat, k: nat,
                                       st: St, base: nat)
    requires limit <= |st.buf| && st.turns == [] && st.phase.Idle? && i <= k < |signals|
    requires forall j | 0 <= j < |signals| :: signals[j].data.Valid()
    requires st.settled == CallAt(signals, base, i)
    requires forall j | i <= j < k ::
               Succeeds(answers, limit, |st.buf|, signals[j], st.startPos, CallAt(signals, base, j))
    requires !Succeeds(answers, limit, |st.buf|, signals[k], st.startPos, CallAt(signals, base, k))
    ensures ReadSignals(answers, limit, signals, i, st).code
         == CodeOf(answers, limit, |st.buf|, signals[k], st.startPos, CallAt(signals, base, k))
    decreases k - i
  {
    hide SignalStep, Succeeds, LengthOf, CallsOf, PackSignal, CodeOf;
    StepSucceeds(answers, limit, signals[i], i, st);
    StepCode(answers, limit, signals[i], i, st);
    if i < k {
      StepEffect(answers, limit, signals[i], i, st);
      SignalsCode(answers, limit, signals, i + 1, k, SignalStep(answers, limit, signals[i], i, st).st, base);
    }
  }

  lemma {:induction false} SignalsDecide(answers: nat -> Answer, limit: nat, did: Did, st: St)
    requires limit <= |st.buf| && st.turns == [] && st.phase.Idle? && st.signalIndex == 0
    requires did.access.Readable? && !did.onlyRefs && st.txPos + did.size + 2 <= limit
    ensures Node(answers, limit, did, 0, st).code == ReadSignals(answers, limit, did.signals, 0, Begin(did, st)).code
  {
    hide ReadSignals, Write;
  }

  // Of the first requested DID, readable and with room: if signal k is the first that cannot be had,
  // the request ends with its code, however often it is suspended.
  lemma {:induction false} FirstSignalRefused(answers: nat -> Answer, limit: nat, req: Request, st: St, k: nat)
    requires 1 <= limit <= |st.buf| && st.phase.Idle? && Wellformed(req.bytes) && Named(req.bytes, 0) in req.lookup
    requires var did := req.lookup[Named(req.bytes, 0)];
             && SignalsOk(did) && did.access.Readable? && !did.onlyRefs && 3 + did.size <= limit && k < |did.signals|
             && (forall j | 0 <= j < k ::
                   Succeeds(answers, limit, |st.buf|, did.signals[j], 3, CallAt(did.signals, st.settled, j)))
             && !Succeeds(answers, limit, |st.buf|, did.signals[k], 3, CallAt(did.signals, st.settled, k))
    ensures var signals := req.lookup[Named(req.bytes, 0)].signals;
            Serve(answers, limit, req, st).code
            == CodeOf(answers, limit, |st.buf|, signals[k], 3, CallAt(signals, st.settled, k))
  {
    hide Serve, Write, Succeeds, CodeOf, ReadSignals, Node;
    var did := req.lookup[Named(req.bytes, 0)];
    var begun := Begin(did, Entry(st.(turns := [])));
    FirstDidDecides(answers, limit, req, st);
    SignalsDecide(answers, limit, did, Entry(st.(turns := [])));
    SignalsCode(answers, limit, did.signals, 0, k, begun, st.settled);
    CodeIsNone(answers, limit, |st.buf|, did.signals[k], 3, CallAt(did.signals, st.settled, k));
  }

  lemma {:induction false} CodeIsNone(answers: nat -> Answer, limit: nat, size: nat, sig: DidSignal, start: nat,
                                      at: nat)
    requires sig.data.Valid() && !Succeeds(answers, limit, size, sig, start, at)
    ensures CodeOf(answers, limit, size, sig, start, at) in {ConditionsNotCorrect, RequestOutOfRange, LeftBuffer}
  {
    hide WindowInside, LengthOf;
  }
}
