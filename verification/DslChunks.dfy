/** Receptions and transmissions of the DSL seen from outside: what an observer of the accepted
    chunks knows about the buffers, in every reachable state. */
module DslChunks {
  import opened Dsl
  import opened Prelude

  // What a reception into the external buffer of row p amounts to: the announced length and
  // the concatenation of the chunks that were accepted.
  datatype Reception = Reception(announced: nat, got: seq<byte>)

  function ObserveRx(c: Config, p: nat, g: Reception, e: Event, reply: Reply): Reception {
    if e.StartRx? && OnRxRow(c, e.rxPdu, p) && reply.Granted? && reply.external then Reception(e.len, [])
    else if e.CopyRx? && OnRxRow(c, e.rxPdu, p) && reply.Stored? && reply.external then g.(got := g.got + e.chunk)
    else g
  }

  // What a transmission of row p amounts to: the response of the DSD and what PduR got of it.
  datatype Transmission = Transmission(response: seq<byte>, sent: seq<byte>)

  function ObserveTx(c: Config, p: nat, s: State, g: Transmission, e: Event, reply: Reply): Transmission
    requires p < |s.rows|
  {
    if e.DsdDone? && OnRxRow(c, e.rxPdu, p) && s.rows[p].tx.ProvidedToDsd? && !e.suppressed then
      Transmission(e.response, [])
    else if e.CopyTx? && OnTxRow(c, e.txPdu, p) && reply.Chunk? && reply.external then g.(sent := g.sent + reply.data)
    else g
  }

  predicate RxMatches(r: Row, g: Reception) {
    r.rx.ProvidedToPdur? ==> r.rxCount <= |r.rxBuf| && r.rxBuf[..r.rxCount] == g.got && r.rxLen == g.announced
  }

  predicate TxMatches(r: Row, g: Transmission) {
    && (r.tx.ResponseReady? || Transmitting(r.tx) ==> r.response == g.response)
    && (r.tx.ResponseReady? || r.tx.TransmitSignaled? ==> g.sent == [])
    && (r.tx.ProvidedToPdur? ==> r.txCount <= |r.response| && r.response[..r.txCount] == g.sent)
  }

  // A step that neither feeds the receive buffer nor the transmit buffer: a reception or
  // transmission that is still under way afterwards was so before, with the same bytes.
  predicate Kept(a: Row, b: Row) {
    && (b.rx.ProvidedToPdur? ==>
          a.rx.ProvidedToPdur? && b.rxBuf == a.rxBuf && b.rxCount == a.rxCount && b.rxLen == a.rxLen)
    && (b.tx.ResponseReady? ==> a.tx.ResponseReady?)
    && (b.tx.TransmitSignaled? ==> a.tx.TransmitSignaled? || a.tx.ResponseReady?)
    && (b.tx.ProvidedToPdur? ==> a.tx.ProvidedToPdur? && b.txCount == a.txCount)
    && (b.tx.ResponseReady? || Transmitting(b.tx) ==> b.response == a.response)
  }

  ghost predicate AllKept(s: State, t: State) {
    |s.rows| == |t.rows| && forall p | 0 <= p < |s.rows| :: Kept(s.rows[p], t.rows[p])
  }

  lemma {:induction false} AllKeptTransitive(s: State, t: State, u: State)
    requires AllKept(s, t) && AllKept(t, u)
    ensures AllKept(s, u)
  {
    forall p | 0 <= p < |s.rows| ensures Kept(s.rows[p], u.rows[p]) {
      assert Kept(s.rows[p], t.rows[p]) && Kept(t.rows[p], u.rows[p]);
    }
  }

  lemma {:induction false} SetKept(c: Config, s: State, p: nat, r: Row)
    requires Shape(c, s) && p < |c.rows| && RowShape(c, p, r) && Kept(s.rows[p], r)
    ensures AllKept(s, Set(c, s, p, r))
  {
    forall q | 0 <= q < |s.rows| ensures Kept(s.rows[q], Set(c, s, p, r).rows[q]) {
      if q != p { KeptReflexive(s.rows[q]); }
    }
  }

  lemma {:induction false} KeptReflexive(r: Row)
    ensures Kept(r, r)
  {
  }

  lemma {:induction false} AllKeptReflexive(s: State)
    ensures AllKept(s, s)
  {
    forall q | 0 <= q < |s.rows| ensures Kept(s.rows[q], s.rows[q]) { KeptReflexive(s.rows[q]); }
  }

  lemma {:induction false} ArbitrateKeepsData(c: Config, s: State, p: nat, pdu: nat, startOk: bool, stopOk: bool)
    requires c.Valid() && Shape(c, s) && p < |c.rows| && pdu < |c.rxRow|
    ensures AllKept(s, Arbitrate(c, s, p, pdu, startOk, stopOk))
    ensures var t := Arbitrate(c, s, p, pdu, startOk, stopOk).rows[p];
            t.rxBuf == s.rows[p].rxBuf && t.rxCount == s.rows[p].rxCount && t.rxLen == s.rows[p].rxLen
  {
    hide AllKept, RowShape;
    AllKeptReflexive(s);
    var row := s.rows[p];
    var t := Arbitrate(c, s, p, pdu, startOk, stopOk);
    if row.started {
    } else if s.active.None? {
      if startOk { KeptAtOneRow(s, t, p); }
    } else {
      var a := s.active.value;
      if c.rows[p].priority < c.rows[a].priority || s.rows[a].session == DEFAULT_SESSION {
        if stopOk && s.rows[a].tx.NotInUse? && startOk {
          var closed := Set(c, s, a, s.rows[a].(started := false));
          KeptAtOneRow(s, closed, a);
          KeptAtOneRow(closed, t, p);
          AllKeptTransitive(s, closed, t);
        } else if stopOk && !s.rows[a].tx.NotInUse? {
          KeptAtOneRow(s, t, p);
        }
      } else {
        KeptAtOneRow(s, t, p);
      }
    }
  }

  lemma {:induction false} KeptAtOneRow(s: State, t: State, p: nat)
    requires p < |s.rows| == |t.rows| && t.rows == s.rows[p := t.rows[p]] && Kept(s.rows[p], t.rows[p])
    ensures AllKept(s, t)
  {
    forall q | 0 <= q < |s.rows| ensures Kept(s.rows[q], t.rows[q]) {
      if q != p { KeptReflexive(s.rows[q]); }
    }
  }

  lemma {:induction false} ResetKeepsData(c: Config, s: State)
    requires c.Valid() && Shape(c, s)
    ensures AllKept(s, ResetSessionTimer(c, s))
  {
    if s.active.Some? {
      SetKept(c, s, s.active.value, StartS3(c, s.active.value, s.rows[s.active.value]));
    } else {
      AllKeptReflexive(s);
    }
  }

  lemma {:induction false} RxExternalKeepsData(c: Config, s: State, p: nat, pdu: nat, ok: bool, startOk: bool,
                                               stopOk: bool)
    requires c.Valid() && Shape(c, s) && p < |c.rows| && pdu < |c.rxRow|
    ensures AllKept(s, RxExternal(c, s, p, pdu, ok, startOk, stopOk).s)
  {
    hide Arbitrate, ResetSessionTimer, AllKept;
    var row := s.rows[p];
    if !ok || (row.rxLen != 0 && row.rxLen != row.rxCount) {
      ResetKeepsData(c, s);
      var timed := ResetSessionTimer(c, s);
      SetKept(c, timed, p, timed.rows[p].(rx := NotInUse, rxBusy := false, rxPdu := None));
      AllKeptTransitive(s, timed, RxExternal(c, s, p, pdu, ok, startOk, stopOk).s);
    } else if IsTesterPresent(row.rxBuf) {
      SetKept(c, s, p, StartS3(c, p, row).(rx := NotInUse, rxBusy := false, rxPdu := None));
    } else {
      ArbitrateKeepsData(c, s, p, pdu, startOk, stopOk);
      var s' := Arbitrate(c, s, p, pdu, startOk, stopOk);
      if s'.rows[p].started {
        SetKept(c, s', p, HandOver(c, s', p, pdu).s.rows[p]);
        AllKeptTransitive(s, s', HandOver(c, s', p, pdu).s);
      }
    }
  }

  lemma {:induction false} RxLocalKeepsData(c: Config, s: State, p: nat, ok: bool)
    requires c.Valid() && Shape(c, s) && p < |c.rows|
    ensures AllKept(s, RxLocal(c, s, p, ok))
  {
    hide ResetSessionTimer, AllKept;
    var row := s.rows[p];
    ResetKeepsData(c, s);
    SetKept(c, s, p, StartS3(c, p, row));
    AllKeptReflexive(s);
    var timed :=
      if !ok || (row.localRxLen != 0 && row.localRxLen != row.localRxCount) then ResetSessionTimer(c, s)
      else if IsTesterPresent(row.localRxBuf) then Set(c, s, p, StartS3(c, p, row))
      else s;
    SetKept(c, timed, p, timed.rows[p].(localRx := NotInUse, localRxPdu := None));
    AllKeptTransitive(s, timed, RxLocal(c, s, p, ok));
  }

  lemma {:induction false} RxKeepsData(c: Config, s: State, pdu: nat, ok: bool, startOk: bool, stopOk: bool)
    requires c.Valid() && Shape(c, s)
    ensures AllKept(s, RxIndication(c, s, pdu, ok, startOk, stopOk).s)
  {
    hide RxExternal, RxLocal, AllKept;
    AllKeptReflexive(s);
    if pdu < |c.rxRow| {
      RxExternalKeepsData(c, s, c.rxRow[pdu], pdu, ok, startOk, stopOk);
      RxLocalKeepsData(c, s, c.rxRow[pdu], ok);
    }
  }

  lemma {:induction false} MainS3KeepsData(c: Config, s: State, p: nat)
    requires c.Valid() && Shape(c, s) && p < |c.rows|
    ensures AllKept(s, MainS3(c, s, p))
  {
    hide AllKept, RowShape;
    var t := MainS3(c, s, p);
    assert t.rows == s.rows[p := t.rows[p]];
    KeptAtOneRow(s, t, p);
  }

  lemma {:induction false} SendKeepsData(c: Config, s: State, p: nat, nrc: byte, ok: bool)
    requires c.Valid() && Shape(c, s) && p < |c.rows|
    ensures AllKept(s, SendResponse(c, s, p, nrc, ok).s)
  {
    var q := c.rxRow[s.rows[p].diagReq];
    AllKeptReflexive(s);
    if s.rows[q].localTx.NotInUse? {
      SetKept(c, s, q, s.rows[q].(localTx := TransmitSignaled, localTxBuf := [0x7F, s.rows[p].rxBuf[0], nrc]));
    }
  }

  lemma {:induction false} MainWaitingKeepsData(c: Config, s: State, p: nat, ok: bool)
    requires c.Valid() && Shape(c, s) && p < |c.rows|
    ensures AllKept(s, MainWaiting(c, s, p, ok).s)
  {
    hide AllKept, SendResponse;
    var row := s.rows[p];
    if Decrement(row.stateTimeout) > 0 {
      SetKept(c, s, p, row.(stateTimeout := Decrement(row.stateTimeout)));
    } else {
      var again := Set(c, s, p, row.(stateTimeout := P2StarCycles(c, p, row.session, 0)));
      SetKept(c, s, p, row.(stateTimeout := P2StarCycles(c, p, row.session, 0)));
      var nrc := if c.forcePending && row.pendingCount != 0 then RESPONSE_PENDING else GENERAL_REJECT;
      SendKeepsData(c, again, p, nrc, ok);
      var sent := SendResponse(c, again, p, nrc, ok).s;
      AllKeptTransitive(s, again, sent);
      SetKept(c, sent, p, MainWaiting(c, s, p, ok).s.rows[p]);
      AllKeptTransitive(s, sent, MainWaiting(c, s, p, ok).s);
    }
  }

  lemma {:induction false} MainTransmitKeepsData(c: Config, s: State, p: nat, ok: bool)
    requires c.Valid() && Shape(c, s) && p < |c.rows|
    requires s.rows[p].tx.ResponseReady? && c.rxRow[s.rows[p].diagReq] == p
    ensures AllKept(s, MainTransmit(c, s, p, ok).s)
  {
    hide AllKept;
    AllKeptReflexive(s);
    if s.rows[p].localTx.NotInUse? {
      SetKept(c, s, p, MainTransmit(c, s, p, ok).s.rows[p]);
    }
  }

  lemma {:induction false} GiveWayKeepsData(c: Config, s: State, p: nat)
    requires c.Valid() && Shape(c, s) && p < |c.rows|
    ensures AllKept(s, GiveWay(c, s, p))
  {
    AllKeptReflexive(s);
    if s.active.Some? {
      var a := s.active.value;
      if s.rows[a].tx.NotInUse? || s.rows[p].preemptTimeout == 0 {
        var row := s.rows[a].(started := false);
        var closed := if row.tx.NotInUse? then row else Release(row);
        var t := Set(c, s, a, closed);
        SetKept(c, s, a, closed);
        SetKept(c, t, p, Release(t.rows[p]));
        AllKeptTransitive(s, t, Set(c, t, p, Release(t.rows[p])));
      }
    }
  }

  lemma {:induction false} TellBusyKeepsData(c: Config, s: State, p: nat, ok: bool)
    requires c.Valid() && Shape(c, s) && p < |c.rows|
    ensures AllKept(s, TellBusy(c, s, p, ok))
  {
    hide SendResponse;
    AllKeptReflexive(s);
    if !s.busySent {
      SendKeepsData(c, s, p, BUSY_REPEAT_REQUEST, ok);
      var busy := SendResponse(c, s, p, BUSY_REPEAT_REQUEST, ok);
      SetKept(c, busy.s, p, busy.s.rows[p].(rx := NotInUse, rxBusy := false));
      AllKeptTransitive(s, busy.s, Set(c, busy.s, p, busy.s.rows[p].(rx := NotInUse, rxBusy := false)));
    }
  }

  lemma {:induction false} PreemptingKeepsData(c: Config, s: State, p: nat, ok: bool)
    requires c.Valid() && Shape(c, s) && p < |c.rows|
    ensures AllKept(s, MainPreempting(c, s, p, ok).s)
  {
    hide AllKept, TellBusy, GiveWay;
    AllKeptReflexive(s);
    if s.preempting {
      var told := TellBusy(c, s, p, ok);
      TellBusyKeepsData(c, s, p, ok);
      var timed := Set(c, told, p, told.rows[p].(preemptTimeout := Decrement(told.rows[p].preemptTimeout)));
      SetKept(c, told, p, told.rows[p].(preemptTimeout := Decrement(told.rows[p].preemptTimeout)));
      GiveWayKeepsData(c, timed, p);
      AllKeptTransitive(s, told, timed);
      AllKeptTransitive(s, timed, GiveWay(c, timed, p));
    }
  }

  lemma {:induction false} MainRowKeepsData(c: Config, s: State, p: nat, ok: bool)
    requires c.Valid() && Inv(c, s) && p < |c.rows|
    ensures AllKept(s, MainRow(c, s, p, ok).s)
  {
    hide AllKept, MainPreempting, MainWaiting, MainTransmit, MainS3;
    var s' := MainS3(c, s, p);
    MainS3KeepsInv(c, s, p);
    MainS3KeepsData(c, s, p);
    assert RowOk(c, s'.active, p, s'.rows[p]);
    match s'.rows[p].tx
    case ProvidedToDsd =>
      MainWaitingKeepsData(c, s', p, ok);
      AllKeptTransitive(s, s', MainRow(c, s, p, ok).s);
    case ResponseReady =>
      MainTransmitKeepsData(c, s', p, ok);
      AllKeptTransitive(s, s', MainRow(c, s, p, ok).s);
    case PreemptNrc =>
      PreemptingKeepsData(c, s', p, ok);
      AllKeptTransitive(s, s', MainRow(c, s, p, ok).s);
    case _ =>
  }

  lemma {:induction false} MainKeepsData(c: Config, s: State, oks: seq<bool>, n: nat)
    requires c.Valid() && Inv(c, s) && n <= |c.rows| == |oks|
    ensures AllKept(s, MainRows(c, s, oks, n).s)
  {
    hide MainRow, AllKept, RowOk;
    AllKeptReflexive(s);
    if n > 0 {
      MainKeepsData(c, s, oks, n - 1);
      MainRowsKeepInv(c, s, oks, n - 1);
      var before := MainRows(c, s, oks, n - 1).s;
      MainRowKeepsData(c, before, n - 1, oks[n - 1]);
      AllKeptTransitive(s, before, MainRows(c, s, oks, n).s);
    }
  }

  lemma {:induction false} DsdPendingKeepsData(c: Config, s: State, pdu: nat, ok: bool)
    requires c.Valid() && Shape(c, s)
    ensures AllKept(s, DsdSendResponsePending(c, s, pdu, ok).s)
  {
    hide AllKept, SendResponse;
    AllKeptReflexive(s);
    if pdu < |c.rxRow| && s.rows[c.rxRow[pdu]].tx.ProvidedToDsd? {
      var p := c.rxRow[pdu];
      SendKeepsData(c, s, p, RESPONSE_PENDING, ok);
      var sent := SendResponse(c, s, p, RESPONSE_PENDING, ok).s;
      SetKept(c, sent, p, DsdSendResponsePending(c, s, pdu, ok).s.rows[p]);
      AllKeptTransitive(s, sent, DsdSendResponsePending(c, s, pdu, ok).s);
    }
  }

  lemma {:induction false} EndTxKeepsData(c: Config, s: State, pdu: nat)
    requires c.Valid() && Shape(c, s)
    ensures AllKept(s, TxConfirmation(c, s, pdu).s)
  {
    AllKeptReflexive(s);
  }

  lemma {:induction false} StepKeepsData(c: Config, s: State, e: Event)
    requires c.Valid() && Inv(c, s) && EventOk(c, e)
    requires !e.StartRx? && !e.CopyRx? && !e.DsdDone? && !e.CopyTx?
    ensures AllKept(s, Step(c, s, e).s)
  {
    hide RxIndication, MainRows, RowOk, DsdSendResponsePending, TxConfirmation;
    AllKeptReflexive(s);
    match e
    case EndRx(pdu, ok, startOk, stopOk) => RxKeepsData(c, s, pdu, ok, startOk, stopOk);
    case Main(oks) => MainKeepsData(c, s, oks, |oks|);
    case DsdPending(pdu, taken) => DsdPendingKeepsData(c, s, pdu, taken);
    case EndTx(pdu) => EndTxKeepsData(c, s, pdu);
    case ChangeSession(_) =>
  }

  // The observers agree with the buffers after every step.
  lemma {:induction false} StartRxObserved(c: Config, s: State, e: Event, p: nat, g: Reception, h: Transmission)
    requires c.Valid() && Inv(c, s) && p < |c.rows| && e.StartRx? && RxMatches(s.rows[p], g) && TxMatches(s.rows[p], h)
    ensures var r := StartOfReception(c, s, e.rxPdu, e.len, e.internal);
            RxMatches(r.s.rows[p], ObserveRx(c, p, g, e, r.reply)) && TxMatches(r.s.rows[p], h)
  {
    hide RowOk, RowShape;
  }

  lemma {:induction false} CopyRxObserved(c: Config, s: State, e: Event, p: nat, g: Reception, h: Transmission)
    requires c.Valid() && Inv(c, s) && p < |c.rows| && e.CopyRx? && RxMatches(s.rows[p], g) && TxMatches(s.rows[p], h)
    ensures var r := CopyRxData(c, s, e.rxPdu, e.chunk);
            RxMatches(r.s.rows[p], ObserveRx(c, p, g, e, r.reply)) && TxMatches(r.s.rows[p], h)
  {
    if OnRxRow(c, e.rxPdu, p) && ReceivesExternal(s.rows[p], e.rxPdu)
      && s.rows[p].rxCount + |e.chunk| <= |s.rows[p].rxBuf| {
      var row := s.rows[p];
      assert Write(row.rxBuf, row.rxCount, e.chunk)[..row.rxCount + |e.chunk|] == row.rxBuf[..row.rxCount] + e.chunk;
    }
  }

  lemma {:induction false} DsdDoneObserved(c: Config, s: State, e: Event, p: nat, g: Reception, h: Transmission)
    requires c.Valid() && Inv(c, s) && p < |c.rows| && e.DsdDone? && RxMatches(s.rows[p], g) && TxMatches(s.rows[p], h)
    ensures var r := DsdProcessingDone(c, s, e.rxPdu, e.suppressed, e.response);
            RxMatches(r.s.rows[p], g) && TxMatches(r.s.rows[p], ObserveTx(c, p, s, h, e, r.reply))
  {
    hide RowOk, RowShape;
  }

  lemma {:induction false} CopyTxObserved(c: Config, s: State, e: Event, p: nat, g: Reception, h: Transmission)
    requires c.Valid() && Inv(c, s) && p < |c.rows| && e.CopyTx? && RxMatches(s.rows[p], g) && TxMatches(s.rows[p], h)
    ensures var r := CopyTxData(c, s, e.txPdu, e.n);
            RxMatches(r.s.rows[p], g) && TxMatches(r.s.rows[p], ObserveTx(c, p, s, h, e, r.reply))
  {
    hide RowOk, RowShape, RxMatches, TxMatches;
    var r := CopyTxData(c, s, e.txPdu, e.n);
    if OnTxRow(c, e.txPdu, p) {
      ChunkObserved(c, s, e.txPdu, e.n);
      ChunkMatches(s.rows[p], r.s.rows[p], e.n, r.reply, g, h);
    } else {
      assert r.s.rows[p] == s.rows[p];
    }
  }

  // What one chunk does to the row of the transmission.
  predicate ChunkTaken(a: Row, b: Row, n: nat, reply: Reply) {
    && b.rx == a.rx && b.rxBuf == a.rxBuf && b.rxCount == a.rxCount && b.rxLen == a.rxLen && b.response == a.response
    && if !Transmitting(a.tx) then b.tx == a.tx && (reply.Chunk? ==> !reply.external)
       else
         var at := if a.tx.TransmitSignaled? then 0 else a.txCount;
         && b.tx.ProvidedToPdur?
         && if at + n <= |a.response| then
              b.txCount == at + n && reply == Chunk(true, a.response[at..at + n], |a.response| - at - n)
            else b.txCount == at && reply == Refused
  }

  lemma {:induction false} ChunkObserved(c: Config, s: State, pdu: nat, n: nat)
    requires c.Valid() && Shape(c, s) && pdu < |c.txRow|
    ensures var p, r := c.txRow[pdu], CopyTxData(c, s, pdu, n); ChunkTaken(s.rows[p], r.s.rows[p], n, r.reply)
  {
    hide RowShape, ChunkTaken, CopyTxData;
    if Transmitting(s.rows[c.txRow[pdu]].tx) {
      ExternalChunkObserved(c, s, pdu, n);
    } else {
      LocalChunkObserved(c, s, pdu, n);
    }
  }

  lemma {:induction false} ExternalChunkObserved(c: Config, s: State, pdu: nat, n: nat)
    requires c.Valid() && Shape(c, s) && pdu < |c.txRow| && Transmitting(s.rows[c.txRow[pdu]].tx)
    ensures var p, r := c.txRow[pdu], CopyTxData(c, s, pdu, n); ChunkTaken(s.rows[p], r.s.rows[p], n, r.reply)
  {
    assert RowShape(c, c.txRow[pdu], s.rows[c.txRow[pdu]]);
    NextIsTaken(s.rows[c.txRow[pdu]], n);
    hide RowShape, ChunkTaken, NextOfResponse;
  }

  lemma {:induction false} NextIsTaken(r: Row, n: nat)
    requires Transmitting(r.tx) && (r.tx.ProvidedToPdur? ==> r.txCount <= |r.response|)
    ensures var t := NextOfResponse(r, n); ChunkTaken(r, t.0, n, t.1)
  {
  }

  lemma {:induction false} LocalChunkObserved(c: Config, s: State, pdu: nat, n: nat)
    requires c.Valid() && Shape(c, s) && pdu < |c.txRow| && !Transmitting(s.rows[c.txRow[pdu]].tx)
    ensures var p, r := c.txRow[pdu], CopyTxData(c, s, pdu, n); ChunkTaken(s.rows[p], r.s.rows[p], n, r.reply)
  {
    assert RowShape(c, c.txRow[pdu], s.rows[c.txRow[pdu]]);
    NoneIsTaken(s.rows[c.txRow[pdu]], n);
    hide RowShape, ChunkTaken, NextOfLocal;
  }

  lemma {:induction false} NoneIsTaken(r: Row, n: nat)
    requires !Transmitting(r.tx) && |r.localTxBuf| == 3 && r.localTxCount <= 3
    ensures ChunkTaken(r, r, n, Refused)
    ensures Transmitting(r.localTx) ==> var t := NextOfLocal(r, n); ChunkTaken(r, t.0, n, t.1)
  {
  }

  lemma {:induction false} ChunkMatches(a: Row, b: Row, n: nat, reply: Reply, g: Reception, h: Transmission)
    requires ChunkTaken(a, b, n, reply) && RxMatches(a, g) && TxMatches(a, h)
    ensures RxMatches(b, g)
    ensures TxMatches(b, if reply.Chunk? && reply.external then h.(sent := h.sent + reply.data) else h)
  {
    if Transmitting(a.tx) {
      var at := if a.tx.TransmitSignaled? then 0 else a.txCount;
      assert a.response[..at] == h.sent;
      if at + n <= |a.response| { assert a.response[..at + n] == a.response[..at] + a.response[at..at + n]; }
    }
  }

  lemma {:induction false} KeptObserved(a: Row, b: Row, g: Reception, h: Transmission)
    requires Kept(a, b) && RxMatches(a, g) && TxMatches(a, h)
    ensures RxMatches(b, g) && TxMatches(b, h)
  {
  }

  lemma {:induction false} Observed(c: Config, s: State, e: Event, p: nat, g: Reception, h: Transmission)
    requires c.Valid() && Inv(c, s) && EventOk(c, e) && p < |c.rows| && RxMatches(s.rows[p], g)
             && TxMatches(s.rows[p], h)
    ensures var r := Step(c, s, e);
            RxMatches(r.s.rows[p], ObserveRx(c, p, g, e, r.reply))
            && TxMatches(r.s.rows[p], ObserveTx(c, p, s, h, e, r.reply))
  {
    hide StartOfReception, CopyRxData, RxIndication, SetSession, MainRows, CopyTxData, TxConfirmation,
      DsdProcessingDone, DsdSendResponsePending, RowOk, RxMatches, TxMatches, Kept;
    match e
    case StartRx(_, _, _) => StartRxObserved(c, s, e, p, g, h);
    case CopyRx(_, _) => CopyRxObserved(c, s, e, p, g, h);
    case DsdDone(_, _, _) => DsdDoneObserved(c, s, e, p, g, h);
    case CopyTx(_, _) => CopyTxObserved(c, s, e, p, g, h);
    case _ =>
      StepKeepsData(c, s, e);
      KeptObserved(s.rows[p], Step(c, s, e).s.rows[p], g, h);
  }

  datatype Watch = Watch(s: State, rx: Reception, tx: Transmission)

  function WatchRun(c: Config, w: Watch, es: seq<Event>, p: nat): (r: Watch)
    requires c.Valid() && Shape(c, w.s) && EventsOk(c, es) && p < |c.rows|
    ensures Shape(c, r.s)
    decreases es
  {
    if es == [] then w
    else
      var r := Step(c, w.s, es[0]);
      WatchRun(c, Watch(r.s, ObserveRx(c, p, w.rx, es[0], r.reply), ObserveTx(c, p, w.s, w.tx, es[0], r.reply)),
               es[1..], p)
  }

  function InitWatch(c: Config): (w: Watch)
    requires c.Valid()
    ensures Shape(c, w.s)
  {
    Watch(Init(c), Reception(0, []), Transmission([], []))
  }

  lemma {:induction false} WatchedRun(c: Config, w: Watch, es: seq<Event>, p: nat)
    requires c.Valid() && Inv(c, w.s) && EventsOk(c, es) && p < |c.rows|
    requires RxMatches(w.s.rows[p], w.rx) && TxMatches(w.s.rows[p], w.tx)
    ensures var r := WatchRun(c, w, es, p);
            Inv(c, r.s) && r.s == Run(c, w.s, es) && RxMatches(r.s.rows[p], r.rx) && TxMatches(r.s.rows[p], r.tx)
    decreases es
  {
    hide Step, RowOk, RxMatches, TxMatches;
    if es != [] {
      Observed(c, w.s, es[0], p, w.rx, w.tx);
      StepKeepsInv(c, w.s, es[0]);
      var r := Step(c, w.s, es[0]);
      WatchedRun(c, Watch(r.s, ObserveRx(c, p, w.rx, es[0], r.reply), ObserveTx(c, p, w.s, w.tx, es[0], r.reply)),
                 es[1..], p);
    }
  }

  lemma {:induction false} WatchedFromInit(c: Config, es: seq<Event>, p: nat)
    requires c.Valid() && EventsOk(c, es) && p < |c.rows|
    ensures var w := WatchRun(c, InitWatch(c), es, p);
            && Inv(c, w.s) && w.s == Run(c, Init(c), es)
            && RxMatches(w.s.rows[p], w.rx) && TxMatches(w.s.rows[p], w.tx)
  {
    InitInv(c);
    WatchedRun(c, InitWatch(c), es, p);
  }

  // However a reception is cut into chunks, the DSD gets exactly their concatenation, and
  // only when its length is the announced one, or none was announced.
  lemma {:induction false} DsdGetsTheChunks(c: Config, es: seq<Event>, p: nat, pdu: nat, ok: bool, startOk: bool,
                                            stopOk: bool)
    requires c.Valid() && EventsOk(c, es) && p < |c.rows| && OnRxRow(c, pdu, p)
    ensures var w := WatchRun(c, InitWatch(c), es, p);
            var reply := RxIndication(c, Run(c, Init(c), es), pdu, ok, startOk, stopOk).reply;
            reply.Indicated? ==>
              && ok && reply == Indicated(pdu, w.rx.got)
              && (w.rx.announced == 0 || w.rx.announced == |w.rx.got|)
  {
    hide RxIndication, WatchRun, Run;
    WatchedFromInit(c, es, p);
    IndicationOfRow(c, Run(c, Init(c), es), pdu, ok, startOk, stopOk);
  }

  lemma {:induction false} IndicationOfRow(c: Config, s: State, pdu: nat, ok: bool, startOk: bool, stopOk: bool)
    requires c.Valid() && Shape(c, s)
    ensures var reply := RxIndication(c, s, pdu, ok, startOk, stopOk).reply;
            reply.Indicated? ==>
              && pdu < |c.rxRow| && ok
              && var row := s.rows[c.rxRow[pdu]];
                 && row.rx.ProvidedToPdur? && (row.rxLen == 0 || row.rxLen == row.rxCount)
                 && reply == Indicated(pdu, row.rxBuf[..row.rxCount])
  {
    hide Arbitrate;
    if pdu < |c.rxRow| { ArbitrateKeepsData(c, s, c.rxRow[pdu], pdu, startOk, stopOk); }
  }

  // The chunks PduR has been given are a prefix of the response, and the reported remainder
  // is the length of the rest.
  lemma {:induction false} PdurGetsAPrefix(c: Config, es: seq<Event>, p: nat, pdu: nat, n: nat)
    requires c.Valid() && EventsOk(c, es) && p < |c.rows| && OnTxRow(c, pdu, p)
    ensures var w := WatchRun(c, InitWatch(c), es, p);
            var r := CopyTxData(c, w.s, pdu, n);
            r.reply.Chunk? && r.reply.external ==>
              && |r.reply.data| == n
              && w.tx.sent + r.reply.data <= w.tx.response
              && r.reply.left == |w.tx.response| - |w.tx.sent| - n
  {
    WatchedFromInit(c, es, p);
    var w := WatchRun(c, InitWatch(c), es, p);
    var row := w.s.rows[p];
    if Transmitting(row.tx) {
      var at := if row.tx.TransmitSignaled? then 0 else row.txCount;
      if at + n <= |row.response| {
        assert row.response[..at + n] == row.response[..at] + row.response[at..at + n];
      }
    }
  }
}
