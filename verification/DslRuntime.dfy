/** The DSL as the program runs it: the protocol rows' runtime data updated in place, one method
    for each callback, and the main function as a loop over the rows. */
module DslRuntime {
  import opened Dsl
  import opened Prelude
  import DslChunks

  class Runtime {
    const c: Config
    const rows: array<Row>
    var active: Option<nat>
    var preempting: bool
    var busySent: bool

    ghost function State(): Dsl.State
      reads this, rows
    {
      Dsl.State(rows[..], active, preempting, busySent)
    }

    // What the pieces of a callback keep.
    ghost predicate Shaped()
      reads this, rows
    {
      c.Valid() && Shape(c, State())
    }

    // What the callbacks and the main function keep.
    ghost predicate Valid()
      reads this, rows
    {
      c.Valid() && Inv(c, State())
    }

    // DslInit.
    constructor (c: Config)
      requires c.Valid()
      ensures this.c == c && fresh(rows) && Valid() && State() == Init(c)
    {
      this.c := c;
      rows := new Row[|c.rows|](p requires 0 <= p < |c.rows| => InitRow(c, p));
      active, preempting, busySent := None, false, false;
      new;
      assert rows[..] == Init(c).rows;
      InitInv(c);
    }

    method Put(p: nat, row: Row)
      requires Shaped() && p < |c.rows| && RowShape(c, p, row)
      modifies rows
      ensures Shaped() && State() == Set(c, old(State()), p, row)
    {
      rows[p] := row;
      assert rows[..] == old(rows[..])[p := row];
    }

    method ReleaseExternalBuffers(p: nat)
      requires Shaped() && p < |c.rows|
      modifies rows
      ensures Shaped() && State() == Set(c, old(State()), p, Release(old(rows[p])))
    {
      Put(p, rows[p].(tx := NotInUse));
      Put(p, rows[p].(rx := NotInUse, rxBusy := false));
    }

    method StartS3Timer(p: nat)
      requires Shaped() && p < |c.rows|
      modifies rows
      ensures Shaped() && State() == Set(c, old(State()), p, StartS3(c, p, old(rows[p])))
    {
      Put(p, rows[p].(s3Count := c.Cycles(c.rows[p].s3), s3Started := true));
    }

    method ResetSessionTimeoutTimer()
      requires Shaped()
      modifies rows
      ensures Shaped() && State() == ResetSessionTimer(c, old(State()))
    {
      if active.Some? { StartS3Timer(active.value); }
    }

    method SetSesCtrlType(session: nat)
      requires Valid()
      modifies rows
      ensures Valid() && State() == SetSession(c, old(State()), session).s
    {
      SetSessionKeepsInv(c, State(), session);
      hide RowOk;
      if active.Some? {
        Put(active.value, rows[active.value].(session := session));
        ResetSessionTimeoutTimer();
      }
    }

    method Send(p: nat, nrc: byte, ok: bool) returns (sent: bool, accepted: bool)
      requires Shaped() && p < |c.rows|
      modifies rows
      ensures Shaped() && SendResult(State(), sent, accepted) == SendResponse(c, old(State()), p, nrc, ok)
    {
      sent, accepted := false, false;
      var q := c.rxRow[rows[p].diagReq];
      if rows[q].localTx.NotInUse? {
        Put(q, rows[q].(localTxBuf := [0x7F, rows[p].rxBuf[0], nrc], localTx := TransmitSignaled));
        sent, accepted := true, ok;
      }
    }

    method LockExternal(p: nat, pdu: nat, len: nat)
      requires Shaped() && p < |c.rows|
      modifies rows
      ensures Shaped()
      ensures State() == Set(c, old(State()), p, old(rows[p]).(rx := ProvidedToPdur, rxBusy := true, rxPdu := Some(pdu),
                                                               rxCount := 0, rxLen := len, s3Started := false))
    {
      Put(p, rows[p].(rxBusy := true, rxLen := len, rxCount := 0, rx := ProvidedToPdur, rxPdu := Some(pdu)));
      StopS3Timer(p);
    }

    method LockLocal(p: nat, pdu: nat, len: nat)
      requires Shaped() && p < |c.rows|
      modifies rows
      ensures Shaped()
      ensures State() == Set(c, old(State()), p,
                             old(rows[p]).(localRx := ProvidedToPdur, localRxPdu := Some(pdu),
                                           localRxCount := 0, localRxLen := len, s3Started := false))
    {
      Put(p, rows[p].(localRx := ProvidedToPdur, localRxLen := len, localRxCount := 0, localRxPdu := Some(pdu)));
      StopS3Timer(p);
    }

    method StopS3Timer(p: nat)
      requires Shaped() && p < |c.rows|
      modifies rows
      ensures Shaped() && State() == Set(c, old(State()), p, old(rows[p]).(s3Started := false))
    {
      Put(p, rows[p].(s3Started := false));
    }

    method StartReception(pdu: nat, len: nat, internal: bool) returns (reply: Reply)
      requires Valid()
      modifies rows
      ensures Valid() && Outcome(State(), reply) == StartOfReception(c, old(State()), pdu, len, internal)
    {
      ghost var s0 := State();
      hide RowOk, RowShape;
      if pdu >= |c.rxRow| { return Refused; }
      var p := c.rxRow[pdu];
      if c.rows[p].rxSize < len {
        reply := Overflow;
      } else if rows[p].rx.NotInUse? && !rows[p].rxBusy {
        LockExternal(p, pdu, len);
        reply := Granted(true, c.rows[p].rxSize);
      } else if rows[p].localRx.NotInUse? && !internal {
        reply := Refused;
        if len <= LOCAL_BUFFER_LENGTH {
          LockLocal(p, pdu, len);
          reply := Granted(false, LOCAL_BUFFER_LENGTH);
        }
      } else {
        reply := Busy;
      }
      StartOfReceptionKeepsInv(c, s0, pdu, len, internal);
    }

    method CopyData(pdu: nat, chunk: seq<byte>) returns (reply: Reply)
      requires Valid()
      modifies rows
      ensures Valid() && Outcome(State(), reply) == CopyRxData(c, old(State()), pdu, chunk)
    {
      CopyRxKeepsInv(c, State(), pdu, chunk);
      hide RowOk;
      reply := Refused;
      if pdu >= |c.rxRow| { return; }
      var p := c.rxRow[pdu];
      var row := rows[p];
      if ReceivesExternal(row, pdu) {
        if |chunk| <= |row.rxBuf| - row.rxCount {
          Put(p, row.(rxBuf := Write(row.rxBuf, row.rxCount, chunk), rxCount := row.rxCount + |chunk|));
          reply := Stored(true, |row.rxBuf| - rows[p].rxCount);
        }
      } else if ReceivesLocal(row, pdu) {
        if |chunk| <= LOCAL_BUFFER_LENGTH - row.localRxCount {
          Put(p, row.(localRxBuf := Write(row.localRxBuf, row.localRxCount, chunk),
                      localRxCount := row.localRxCount + |chunk|));
          reply := Stored(false, LOCAL_BUFFER_LENGTH - rows[p].localRxCount);
        }
      }
    }

    method ChooseProtocol(p: nat, pdu: nat, startOk: bool, stopOk: bool)
      requires Shaped() && p < |c.rows| && pdu < |c.rxRow|
      modifies this, rows
      ensures Shaped() && State() == Arbitrate(c, old(State()), p, pdu, startOk, stopOk)
    {
      hide RowShape;
      if rows[p].started { return; }
      if active.None? {
        if startOk { Start(p); }
        return;
      }
      var a := active.value;
      if c.rows[p].priority < c.rows[a].priority || rows[a].session == DEFAULT_SESSION {
        if stopOk {
          if rows[a].tx.NotInUse? {
            if startOk {
              Stop(a);
              Start(p);
            }
          } else {
            Preempt(p, pdu);
          }
        }
      } else {
        Unlock(p);
      }
    }

    // The row becomes the active protocol, in a fresh session.
    method Start(p: nat)
      requires Shaped() && p < |c.rows|
      modifies this, rows
      ensures Shaped() && preempting == old(preempting) && busySent == old(busySent) && active == Some(p)
      ensures rows[..] == old(rows[..])[p := FreshSession(c.rows[p].obd, old(rows[p])).(started := true)]
    {
      var row := rows[p].(session := DEFAULT_SESSION);
      if c.rows[p].obd { row := row.(session := OBD_SESSION); }
      Put(p, row.(started := true));
      active := Some(p);
    }

    method Stop(a: nat)
      requires Shaped() && a < |c.rows|
      modifies rows
      ensures Shaped() && State() == Set(c, old(State()), a, old(rows[a]).(started := false))
    {
      Put(a, rows[a].(started := false));
    }

    method Unlock(p: nat)
      requires Shaped() && p < |c.rows|
      modifies rows
      ensures Shaped() && State() == Set(c, old(State()), p, old(rows[p]).(rx := NotInUse, rxBusy := false))
    {
      Put(p, rows[p].(rx := NotInUse, rxBusy := false));
    }

    // The row waits for the active protocol to end.
    method Preempt(p: nat, pdu: nat)
      requires Shaped() && p < |c.rows| && pdu < |c.rxRow|
      modifies this, rows
      ensures Shaped() && active == old(active) && preempting && !busySent
      ensures rows[..] == old(rows[..])[p := old(rows[p]).(
                preemptTimeout := if old(rows[p]).tx.PreemptNrc? then old(rows[p]).preemptTimeout
                                  else c.Cycles(c.rows[p].preemptTimeout),
                tx := PreemptNrc, pendingCount := c.maxPending, diagReq := pdu)]
    {
      preempting, busySent := true, false;
      if !rows[p].tx.PreemptNrc? {
        Put(p, rows[p].(preemptTimeout := c.Cycles(c.rows[p].preemptTimeout)));
      }
      Put(p, rows[p].(tx := PreemptNrc, pendingCount := c.maxPending, diagReq := pdu));
    }

    method ProvideToDsd(p: nat, pdu: nat) returns (reply: Reply)
      requires Shaped() && p < |c.rows| && pdu < |c.rxRow|
      requires rows[p].rxLen == 0 || rows[p].rxLen == rows[p].rxCount
      modifies rows
      ensures Shaped() && Outcome(State(), reply) == HandOver(c, old(State()), p, pdu)
    {
      Put(p, rows[p].(rx := ProvidedToDsd,
                      stateTimeout := c.Cycles(AdjustP2Timing(c.p2(rows[p].session), c.rows[p].p2Adjust))));
      if rows[p].rxLen == 0 { Put(p, rows[p].(rxLen := rows[p].rxCount)); }
      Put(p, rows[p].(tx := ProvidedToDsd, pendingCount := c.maxPending, diagReq := pdu));
      reply := Indicated(pdu, rows[p].rxBuf[..rows[p].rxLen]);
    }

    method TpRxIndication(pdu: nat, ok: bool, startOk: bool, stopOk: bool) returns (reply: Reply)
      requires Valid()
      modifies this, rows
      ensures Valid() && Outcome(State(), reply) == RxIndication(c, old(State()), pdu, ok, startOk, stopOk)
    {
      RxKeepsInv(c, State(), pdu, ok, startOk, stopOk);
      hide RxExternal, RxLocal, RowShape, RowOk;
      reply := Quiet;
      if pdu >= |c.rxRow| { return; }
      var p := c.rxRow[pdu];
      if ReceivesExternal(rows[p], pdu) {
        reply := EndExternal(p, pdu, ok, startOk, stopOk);
      } else if ReceivesLocal(rows[p], pdu) {
        EndLocal(p, ok);
      }
    }

    method EndExternal(p: nat, pdu: nat, ok: bool, startOk: bool, stopOk: bool) returns (reply: Reply)
      requires Shaped() && p < |c.rows| && pdu < |c.rxRow|
      modifies this, rows
      ensures Shaped() && Outcome(State(), reply) == RxExternal(c, old(State()), p, pdu, ok, startOk, stopOk)
    {
      hide Arbitrate, ResetSessionTimer, HandOver;
      reply := Quiet;
      var lengthOk := rows[p].rxCount == rows[p].rxLen || rows[p].rxLen == 0;
      if !ok || !lengthOk {
        ResetSessionTimeoutTimer();
        Put(p, rows[p].(rx := NotInUse, rxPdu := None, rxBusy := false));
      } else if IsTesterPresent(rows[p].rxBuf) {
        StartS3Timer(p);
        Put(p, rows[p].(rx := NotInUse, rxPdu := None, rxBusy := false));
      } else {
        DslChunks.ArbitrateKeepsData(c, State(), p, pdu, startOk, stopOk);
        ChooseProtocol(p, pdu, startOk, stopOk);
        if rows[p].started { reply := ProvideToDsd(p, pdu); }
      }
    }

    method EndLocal(p: nat, ok: bool)
      requires Shaped() && p < |c.rows|
      modifies rows
      ensures Shaped() && State() == RxLocal(c, old(State()), p, ok)
    {
      hide ResetSessionTimer;
      var lengthOk := rows[p].localRxLen == 0 || rows[p].localRxLen == rows[p].localRxCount;
      if ok && lengthOk {
        if IsTesterPresent(rows[p].localRxBuf) { StartS3Timer(p); }
      } else {
        ResetSessionTimeoutTimer();
      }
      Put(p, rows[p].(localRx := NotInUse, localRxPdu := None));
    }

    method ProcessingDone(pdu: nat, suppressed: bool, response: seq<byte>)
      requires Valid()
      modifies rows
      ensures Valid() && State() == DsdProcessingDone(c, old(State()), pdu, suppressed, response).s
    {
      DsdDoneKeepsInv(c, State(), pdu, suppressed, response);
      hide RowOk;
      if pdu >= |c.rxRow| || !rows[c.rxRow[pdu]].tx.ProvidedToDsd? { return; }
      var p := c.rxRow[pdu];
      if suppressed {
        ReleaseExternalBuffers(p);
      } else {
        Put(p, rows[p].(tx := ResponseReady, response := response));
      }
    }

    method SendResponsePending(pdu: nat, ok: bool)
      requires Valid()
      modifies rows
      ensures Valid() && State() == DsdSendResponsePending(c, old(State()), pdu, ok).s
    {
      ghost var s0 := State();
      hide SendResponse, RowOk, RowShape;
      if pdu < |c.rxRow| && rows[c.rxRow[pdu]].tx.ProvidedToDsd? {
        var p := c.rxRow[pdu];
        ResponseKeepsTimers(State(), p, RESPONSE_PENDING, ok);
        var _, _ := Send(p, RESPONSE_PENDING, ok);
        RestartPending(p);
      }
      DsdPendingKeepsInv(c, s0, pdu, ok);
    }

    // The P2* timer runs, with one response-pending less to go.
    method RestartPending(p: nat)
      requires Shaped() && p < |c.rows|
      modifies rows
      ensures Shaped()
      ensures State() == Set(c, old(State()), p,
                             old(rows[p]).(stateTimeout := P2StarCycles(c, p, old(rows[p]).session, c.period),
                                           pendingCount := Decrement(old(rows[p]).pendingCount)))
    {
      hide P2StarCycles;
      Put(p, rows[p].(stateTimeout := P2StarCycles(c, p, rows[p].session, c.period)));
      Put(p, rows[p].(pendingCount := Decrement(rows[p].pendingCount)));
    }

    lemma {:induction false} ResponseKeepsTimers(s: Dsl.State, p: nat, nrc: byte, ok: bool)
      requires c.Valid() && Shape(c, s) && p < |c.rows|
      ensures var t := SendResponse(c, s, p, nrc, ok).s.rows[p];
              t.session == s.rows[p].session && t.pendingCount == s.rows[p].pendingCount
    {
    }

    method CopyToPdur(pdu: nat, n: nat) returns (reply: Reply)
      requires Valid()
      modifies rows
      ensures Valid() && Outcome(State(), reply) == CopyTxData(c, old(State()), pdu, n)
    {
      CopyTxKeepsInv(c, State(), pdu, n);
      hide RowShape, RowOk;
      reply := Refused;
      if pdu >= |c.txRow| { return; }
      var p := c.txRow[pdu];
      if Transmitting(rows[p].tx) {
        reply := CopyExternal(pdu, n);
      } else if Transmitting(rows[p].localTx) {
        reply := CopyLocal(pdu, n);
      }
    }

    method CopyExternal(pdu: nat, n: nat) returns (reply: Reply)
      requires Shaped() && pdu < |c.txRow| && Transmitting(rows[c.txRow[pdu]].tx)
      modifies rows
      ensures Shaped() && Outcome(State(), reply) == CopyTxData(c, old(State()), pdu, n)
    {
      var p := c.txRow[pdu];
      var at := if rows[p].tx.TransmitSignaled? then 0 else rows[p].txCount;
      reply := Refused;
      if n <= |rows[p].response| - at {
        Put(p, rows[p].(tx := ProvidedToPdur, txCount := at + n));
        reply := Chunk(true, rows[p].response[at..at + n], |rows[p].response| - rows[p].txCount);
      } else {
        Put(p, rows[p].(tx := ProvidedToPdur, txCount := at));
      }
    }

    method CopyLocal(pdu: nat, n: nat) returns (reply: Reply)
      requires Shaped() && pdu < |c.txRow|
      requires !Transmitting(rows[c.txRow[pdu]].tx) && Transmitting(rows[c.txRow[pdu]].localTx)
      modifies rows
      ensures Shaped() && Outcome(State(), reply) == CopyTxData(c, old(State()), pdu, n)
    {
      var p := c.txRow[pdu];
      var at := if rows[p].localTx.TransmitSignaled? then 0 else rows[p].localTxCount;
      reply := Refused;
      if n <= 3 - at {
        Put(p, rows[p].(localTx := ProvidedToPdur, localTxCount := at + n));
        reply := Chunk(false, rows[p].localTxBuf[at..at + n], 3 - rows[p].localTxCount);
      } else {
        Put(p, rows[p].(localTx := ProvidedToPdur, localTxCount := at));
      }
    }

    method TpTxConfirmation(pdu: nat) returns (reply: Reply)
      requires Valid()
      modifies rows
      ensures Valid() && Outcome(State(), reply) == TxConfirmation(c, old(State()), pdu)
    {
      TxConfirmationKeepsInv(c, State(), pdu);
      hide RowOk;
      reply := Quiet;
      if pdu >= |c.txRow| { return; }
      var p := c.txRow[pdu];
      var q := c.rxRow[rows[p].diagReq];
      if Transmitting(rows[p].tx) {
        ReleaseExternalBuffers(q);
        StartS3Timer(q);
        reply := Confirmed(true);
      } else if Transmitting(rows[p].localTx) {
        Put(p, rows[p].(localTx := NotInUse));
        reply := Confirmed(false);
      }
    }

    method CountDownS3(p: nat)
      requires Shaped() && p < |c.rows|
      modifies rows
      ensures Shaped() && State() == Set(c, old(State()), p, old(rows[p]).(s3Count := Decrement(old(rows[p]).s3Count)))
    {
      Put(p, rows[p].(s3Count := Decrement(rows[p].s3Count)));
    }

    // The end of the session closes an OBD row.
    method EndSession(p: nat)
      requires Shaped() && p < |c.rows|
      modifies rows
      ensures Shaped()
      ensures State() == Set(c, old(State()), p,
                             old(rows[p]).(session := DEFAULT_SESSION,
                                           started := old(rows[p]).started && !c.rows[p].obd))
    {
      Put(p, rows[p].(session := DEFAULT_SESSION));
      if c.rows[p].obd { Put(p, rows[p].(started := false)); }
    }

    method CheckS3(p: nat)
      requires Shaped() && p < |c.rows|
      modifies this, rows
      ensures Shaped() && State() == MainS3(c, old(State()), p)
    {
      hide RowShape;
      if rows[p].session == DEFAULT_SESSION { return; }
      if rows[p].s3Started { CountDownS3(p); }
      if rows[p].s3Count == 0 {
        EndSession(p);
        if c.rows[p].obd && active.Some? && c.rows[active.value].obd { active := None; }
      }
    }

    method AwaitDsd(p: nat, ok: bool) returns (nrc: Option<byte>)
      requires Shaped() && p < |c.rows|
      modifies rows
      ensures Shaped() && MainResult(State(), nrc) == MainWaiting(c, old(State()), p, ok)
    {
      hide SendResponse, P2StarCycles;
      nrc := None;
      var count := Decrement(rows[p].stateTimeout);
      if count > 0 {
        Put(p, rows[p].(stateTimeout := count));
      } else {
        Put(p, rows[p].(stateTimeout := P2StarCycles(c, p, rows[p].session, 0)));
        if c.forcePending && rows[p].pendingCount != 0 {
          ResponseKeepsTimers(State(), p, RESPONSE_PENDING, ok);
          var sent, _ := Send(p, RESPONSE_PENDING, ok);
          if sent { nrc := Some(RESPONSE_PENDING); }
          Put(p, rows[p].(pendingCount := Decrement(rows[p].pendingCount)));
        } else {
          var sent, _ := Send(p, GENERAL_REJECT, ok);
          if sent { nrc := Some(GENERAL_REJECT); }
          ReleaseExternalBuffers(p);
        }
      }
    }

    method Transmit(p: nat, ok: bool)
      requires Shaped() && p < |c.rows|
      modifies rows
      ensures Shaped() && MainResult(State(), None) == MainTransmit(c, old(State()), p, ok)
    {
      if rows[p].localTx.NotInUse? {
        var q := c.rxRow[rows[p].diagReq];
        Put(q, rows[q].(tx := TransmitSignaled));
        if !ok {
          StartS3Timer(q);
          ReleaseExternalBuffers(q);
        }
      }
    }

    method AwaitPreemption(p: nat, ok: bool) returns (nrc: Option<byte>)
      requires Shaped() && p < |c.rows|
      modifies this, rows
      ensures Shaped() && MainResult(State(), nrc) == MainPreempting(c, old(State()), p, ok)
    {
      hide GiveWay, SendResponse, RowShape;
      nrc := None;
      if !preempting { return; }
      if !busySent {
        var sent, accepted := Send(p, BUSY_REPEAT_REQUEST, ok);
        if sent { nrc := Some(BUSY_REPEAT_REQUEST); }
        if accepted {
          busySent := true;
          Unlock(p);
        }
      }
      CountDownPreemption(p);
      EndPreempted(p);
    }

    method CountDownPreemption(p: nat)
      requires Shaped() && p < |c.rows|
      modifies rows
      ensures Shaped()
      ensures State() == Set(c, old(State()), p,
              old(rows[p]).(preemptTimeout := Decrement(old(rows[p]).preemptTimeout)))
    {
      Put(p, rows[p].(preemptTimeout := Decrement(rows[p].preemptTimeout)));
    }

    // The protocol stops, and its buffers are released if it was still at work.
    method Close(a: nat)
      requires Shaped() && a < |c.rows|
      modifies rows
      ensures Shaped() && State() == Set(c, old(State()), a, Closed(old(rows[a])))
    {
      var done := rows[a].tx.NotInUse?;
      Stop(a);
      if !done { ReleaseExternalBuffers(a); }
    }

    method EndPreempted(p: nat)
      requires Shaped() && p < |c.rows|
      modifies this, rows
      ensures Shaped() && State() == GiveWay(c, old(State()), p)
    {
      hide RowShape;
      if active.None? { return; }
      var a := active.value;
      if rows[a].tx.NotInUse? || rows[p].preemptTimeout == 0 {
        preempting := false;
        Close(a);
        active := None;
        ReleaseExternalBuffers(p);
      }
    }

    method MainOfRow(p: nat, ok: bool) returns (nrc: Option<byte>)
      requires Shaped() && p < |c.rows|
      modifies this, rows
      ensures Shaped() && MainResult(State(), nrc) == MainRow(c, old(State()), p, ok)
    {
      hide MainS3, MainWaiting, MainTransmit, MainPreempting, RowShape;
      nrc := None;
      CheckS3(p);
      match rows[p].tx
      case ProvidedToDsd => nrc := AwaitDsd(p, ok);
      case ResponseReady => Transmit(p, ok);
      case PreemptNrc => nrc := AwaitPreemption(p, ok);
      case _ =>
    }

    // DslMain.
    method MainFunction(oks: seq<bool>) returns (reply: Reply)
      requires Valid() && |oks| == |c.rows|
      modifies this, rows
      ensures Valid() && Outcome(State(), reply) == MainRows(c, old(State()), oks, |oks|)
    {
      hide MainRow, RowShape, RowOk;
      ghost var s0 := State();
      var nrcs: seq<(nat, byte)> := [];
      var p := 0;
      while p < |c.rows|
        invariant p <= |c.rows| && Shaped()
        invariant Outcome(State(), Sent(nrcs)) == MainRows(c, s0, oks, p)
      {
        var nrc := MainOfRow(p, oks[p]);
        if nrc.Some? { nrcs := nrcs + [(p, nrc.value)]; }
        p := p + 1;
      }
      reply := Sent(nrcs);
      MainRowsKeepInv(c, s0, oks, |oks|);
    }
  }
}
