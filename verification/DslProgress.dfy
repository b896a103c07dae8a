/** When a response that is ready goes out, and what holds it up. */
module DslProgress {
  import opened Dsl
  import opened DslExclusion
  import opened DslPreemption
  import opened DslWait
  import opened Prelude

  // What a response meets at its row's own turn in the main function.
  predicate GoesOut(a: Row, b: Row, ok: bool) {
    && b.localTx == a.localTx && (b.started ==> a.started)
    && if !a.localTx.NotInUse? then b.tx.ResponseReady?
       else if ok then b.tx.TransmitSignaled?
       else b.tx.NotInUse? && b.rx.NotInUse? && !b.rxBusy
  }

  lemma {:induction false} S3KeepsTx(c: Config, s: State, p: nat)
    requires c.Valid() && Shape(c, s) && p < |c.rows|
    ensures var r := MainS3(c, s, p).rows[p];
            && r.localTx == s.rows[p].localTx && r.tx == s.rows[p].tx && r.diagReq == s.rows[p].diagReq
            && (r.started ==> s.rows[p].started)
  {
    hide RowShape;
  }

  lemma {:induction false} TransmitRow(c: Config, s: State, p: nat, ok: bool)
    requires c.Valid() && Shape(c, s) && p < |c.rows| && s.rows[p].tx.ResponseReady?
    requires s.rows[p].diagReq < |c.rxRow| && c.rxRow[s.rows[p].diagReq] == p
    ensures GoesOut(s.rows[p], MainTransmit(c, s, p, ok).s.rows[p], ok)
  {
    hide RowShape;
  }

  lemma {:induction false} ReadyRow(c: Config, s: State, p: nat, ok: bool)
    requires c.Valid() && Inv(c, s) && p < |c.rows| && s.rows[p].tx.ResponseReady?
    ensures GoesOut(s.rows[p], MainRow(c, s, p, ok).s.rows[p], ok)
  {
    assert s.rows[p].diagReq < |c.rxRow| && c.rxRow[s.rows[p].diagReq] == p by {
      assert RowShape(c, p, s.rows[p]) && RowOk(c, s.active, p, s.rows[p]);
    }
    hide RowShape, RowOk, MainWaiting, MainPreempting, MainTransmit, MainS3, GoesOut;
    S3KeepsTx(c, s, p);
    TransmitRow(c, MainS3(c, s, p), p, ok);
    GoesOutReads(s.rows[p], MainS3(c, s, p).rows[p], MainRow(c, s, p, ok).s.rows[p], ok);
  }

  lemma {:induction false} GoesOutReads(a: Row, b: Row, d: Row, ok: bool)
    requires a.localTx == b.localTx && (b.started ==> a.started) && GoesOut(b, d, ok)
    ensures GoesOut(a, d, ok)
  {
  }

  lemma {:induction false} StoppedRow(c: Config, s: State, p: nat, ok: bool)
    requires c.Valid() && Shape(c, s) && p < |c.rows| && s.rows[p].tx.NotInUse?
    ensures var r := MainRow(c, s, p, ok).s.rows[p]; r.tx.NotInUse? && (!s.rows[p].started ==> !r.started)
  {
    hide RowShape, MainWaiting, MainTransmit, MainPreempting;
  }

  // One main-function call: a ready response goes out, or is given up when PduR refuses it,
  // exactly if no negative response of its row is on the way. Only the end of a preemption, which
  // closes the row, can give it up otherwise.
  predicate SentExactly(a: Row, b: Row, ok: bool, ended: bool) {
    if a.localTx.NotInUse? then
      && (b.tx.NotInUse? || (b.tx.TransmitSignaled? && ok))
      && (ok && !ended ==> b.tx.TransmitSignaled?)
    else b.tx.ResponseReady? || (b.tx.NotInUse? && ended)
  }

  lemma {:induction false} GoesOutExactly(c: Config, s: State, oks: seq<bool>, p: nat)
    requires c.Valid() && Inv(c, s) && |oks| == |c.rows| && p < |c.rows| && s.rows[p].tx.ResponseReady?
    ensures var t := MainRows(c, s, oks, |oks|).s; SentExactly(s.rows[p], t.rows[p], oks[p], Ended(s, t))
  {
    hide RowOk, MainRow, MainRows, RowShape, SameOrClosed, SentExactly, GoesOut;
    MainRowsByRow(c, s, oks, p);
    MainRowsKeepInv(c, s, oks, p);
    RowsBeforeTurn(c, s, oks, p, p);
    RowsAfterTurn(c, s, oks, |oks|, p);
    OneMoreRow(c, s, oks, p + 1, p);
    var before, t := MainRows(c, s, oks, p).s, MainRows(c, s, oks, |oks|).s;
    var turn := MainRow(c, before, p, oks[p]).s;
    ClosedIsIdle(s.rows[p], before.rows[p]);
    BusyTurn(c, before, p, oks[p]);
    if before.rows[p].tx.ResponseReady? { ReadyRow(c, before, p, oks[p]); }
    if before.rows[p].tx.NotInUse? { StoppedRow(c, before, p, oks[p]); }
    SentByPieces(s.rows[p], before.rows[p], turn.rows[p], t.rows[p], oks[p], Ended(s, t));
  }

  lemma {:induction false} ClosedIsIdle(a: Row, b: Row)
    requires a.tx.ResponseReady? && SameOrClosed(a, b)
    ensures b == a || b.tx.NotInUse?
  {
  }

  lemma {:induction false} SentByPieces(a: Row, before: Row, turn: Row, b: Row, ok: bool, ended: bool)
    requires a.tx.ResponseReady? && SameOrClosed(a, before) && SameOrClosed(turn, b)
    requires (before == a || ended) && (b == turn || ended)
    requires before.tx.ResponseReady? ==> GoesOut(before, turn, ok)
    requires before.tx.NotInUse? ==> turn.tx.NotInUse?
    ensures SentExactly(a, b, ok, ended)
  {
  }

  predicate ConfirmsRow(c: Config, e: Event, p: nat) { e.EndTx? && OnTxRow(c, e.txPdu, p) }

  predicate Unconfirmed(c: Config, es: seq<Event>, p: nat) { forall i | 0 <= i < |es| :: !ConfirmsRow(c, es[i], p) }

  // A negative response is on the way until PduR confirms it, even one PduR has refused; and so
  // long no response of its row goes out.
  lemma {:induction false} HeldUntilConfirmed(c: Config, s: State, es: seq<Event>, p: nat)
    requires c.Valid() && Inv(c, s) && EventsOk(c, es) && p < |c.rows|
    requires Transmitting(s.rows[p].localTx) && Unconfirmed(c, es, p)
    ensures Inv(c, Run(c, s, es))
    ensures var r := Run(c, s, es).rows[p]; Transmitting(r.localTx) && !Transmitting(r.tx)
    decreases es
  {
    hide RowShape, Step;
    assert !Transmitting(s.rows[p].tx) by { assert RowOk(c, s.active, p, s.rows[p]); }
    hide RowOk;
    if es != [] {
      assert !ConfirmsRow(c, es[0], p);
      StepKeepsInv(c, s, es[0]);
      StepHolds(c, s, es[0], p);
      assert Unconfirmed(c, es[1..], p);
      HeldUntilConfirmed(c, Step(c, s, es[0]).s, es[1..], p);
    }
  }

  // And any row that receive PDUs lead to can be held like that: PduR refuses a 0x78 the DSD asked
  // for, and then the response is ready.
  lemma {:induction false} AnyRowCanBeHeld(c: Config, i: nat, response: seq<byte>, more: seq<Event>)
    requires c.Valid() && i < |c.rxRow| && EventsOk(c, more) && Unconfirmed(c, more, c.rxRow[i])
    ensures var es := RequestOn(i) + [DsdPending(i, false), DsdDone(i, false, response)];
            && EventsOk(c, es)
            && var s, p := Run(c, Init(c), es), c.rxRow[i];
               && s.rows[p].tx.ResponseReady? && s.rows[p].response == response && Transmitting(s.rows[p].localTx)
               && !Transmitting(Run(c, s, more).rows[p].tx)
  {
    hide Run, RowShape, RowOk;
    var p, pending, done := c.rxRow[i], DsdPending(i, false), DsdDone(i, false, response);
    InitInv(c);
    RunKeepsInv(c, Init(c), RequestOn(i));
    RequestReachesDsd(c, Init(c), i);
    var s1 := Run(c, Init(c), RequestOn(i));
    StepKeepsInv(c, s1, pending);
    PendingIsRefused(c, s1, i);
    var s2 := Step(c, s1, pending).s;
    StepKeepsInv(c, s2, done);
    RunOne(c, s1, pending);
    RunOne(c, s2, done);
    RunAppend(c, s1, [pending], [done]);
    RunAppend(c, Init(c), RequestOn(i), [pending] + [done]);
    assert [pending] + [done] == [pending, done];
    HeldUntilConfirmed(c, Step(c, s2, done).s, more, p);
  }

  lemma {:induction false} PendingIsRefused(c: Config, s: State, i: nat)
    requires c.Valid() && Inv(c, s) && i < |c.rxRow|
    requires s.rows[c.rxRow[i]].tx.ProvidedToDsd? && s.rows[c.rxRow[i]].localTx.NotInUse?
    ensures var r := Step(c, s, DsdPending(i, false)).s.rows[c.rxRow[i]]; r.tx.ProvidedToDsd? && Transmitting(r.localTx)
  {
    hide SendResponse, RowOk, P2StarCycles;
    SendResponseKeepsInv(c, s, c.rxRow[i], RESPONSE_PENDING, false);
  }

  // No row's negative response gets lost.
  predicate AllHeld(a: State, b: State) {
    |a.rows| == |b.rows| && forall p | 0 <= p < |a.rows| && Transmitting(a.rows[p].localTx) ::
      Transmitting(b.rows[p].localTx)
  }

  lemma {:induction false} StepHolds(c: Config, s: State, e: Event, p: nat)
    requires c.Valid() && Shape(c, s) && EventOk(c, e) && p < |c.rows|
    requires Transmitting(s.rows[p].localTx) && !ConfirmsRow(c, e, p)
    ensures Transmitting(Step(c, s, e).s.rows[p].localTx)
  {
    hide StartOfReception, CopyRxData, RxIndication, DsdProcessingDone, DsdSendResponsePending, SetSession, MainRows,
      CopyTxData, TxConfirmation, RowShape;
    match e
    case StartRx(pdu, len, internal) => StartRxHolds(c, s, pdu, len, internal);
    case CopyRx(pdu, chunk) => CopyRxHolds(c, s, pdu, chunk);
    case EndRx(pdu, ok, startOk, stopOk) => RxHolds(c, s, pdu, ok, startOk, stopOk);
    case DsdDone(pdu, suppressed, response) => DsdDoneHolds(c, s, pdu, suppressed, response);
    case DsdPending(pdu, ok) => DsdPendingHolds(c, s, pdu, ok);
    case CopyTx(pdu, n) => CopyTxHolds(c, s, pdu, n);
    case EndTx(pdu) => OtherConfirmationHolds(c, s, pdu, p);
    case ChangeSession(session) => SetSessionHolds(c, s, session);
    case Main(oks) => MainRowsHold(c, s, oks, |oks|);
  }

  lemma {:induction false} StartRxHolds(c: Config, s: State, pdu: nat, len: nat, internal: bool)
    requires c.Valid() && Shape(c, s)
    ensures AllHeld(s, StartOfReception(c, s, pdu, len, internal).s)
  {
    hide RowShape;
  }

  lemma {:induction false} CopyRxHolds(c: Config, s: State, pdu: nat, chunk: seq<byte>)
    requires c.Valid() && Shape(c, s)
    ensures AllHeld(s, CopyRxData(c, s, pdu, chunk).s)
  {
    hide RowShape, Write;
  }

  lemma {:induction false} DsdDoneHolds(c: Config, s: State, pdu: nat, suppressed: bool, response: seq<byte>)
    requires c.Valid() && Shape(c, s)
    ensures AllHeld(s, DsdProcessingDone(c, s, pdu, suppressed, response).s)
  {
    hide RowShape;
  }

  lemma {:induction false} DsdPendingHolds(c: Config, s: State, pdu: nat, ok: bool)
    requires c.Valid() && Shape(c, s)
    ensures AllHeld(s, DsdSendResponsePending(c, s, pdu, ok).s)
  {
    hide SendResponse, P2StarCycles;
    if pdu < |c.rxRow| { SendHolds(c, s, c.rxRow[pdu], RESPONSE_PENDING, ok); }
  }

  lemma {:induction false} CopyTxHolds(c: Config, s: State, pdu: nat, n: nat)
    requires c.Valid() && Shape(c, s)
    ensures AllHeld(s, CopyTxData(c, s, pdu, n).s)
  {
    hide RowShape;
    if pdu < |c.txRow| {
      CopyTxHoldsRow(c, s, pdu, n);
      var t := CopyTxData(c, s, pdu, n).s;
      assert forall q | 0 <= q < |s.rows| && q != c.txRow[pdu] :: t.rows[q] == s.rows[q];
    }
  }

  lemma {:induction false} CopyTxHoldsRow(c: Config, s: State, pdu: nat, n: nat)
    requires c.Valid() && Shape(c, s) && pdu < |c.txRow|
    ensures var p := c.txRow[pdu];
            Transmitting(s.rows[p].localTx) ==> Transmitting(CopyTxData(c, s, pdu, n).s.rows[p].localTx)
  {
    hide RowShape;
  }

  lemma {:induction false} SetSessionHolds(c: Config, s: State, session: nat)
    requires c.Valid() && Shape(c, s)
    ensures AllHeld(s, SetSession(c, s, session).s)
  {
    hide RowShape;
  }

  lemma {:induction false} OtherConfirmationHolds(c: Config, s: State, pdu: nat, p: nat)
    requires c.Valid() && Shape(c, s) && p < |c.rows| && !OnTxRow(c, pdu, p)
    ensures TxConfirmation(c, s, pdu).s.rows[p].localTx == s.rows[p].localTx
  {
    hide RowShape;
  }

  lemma {:induction false} RxHolds(c: Config, s: State, pdu: nat, ok: bool, startOk: bool, stopOk: bool)
    requires c.Valid() && Shape(c, s)
    ensures AllHeld(s, RxIndication(c, s, pdu, ok, startOk, stopOk).s)
  {
    hide RowShape, RxExternal, RxLocal;
    if pdu < |c.rxRow| {
      RxExternalHolds(c, s, c.rxRow[pdu], pdu, ok, startOk, stopOk);
      RxLocalHolds(c, s, c.rxRow[pdu], ok);
    }
  }

  lemma {:induction false} RxExternalHolds(c: Config, s: State, p: nat, pdu: nat, ok: bool, startOk: bool, stopOk: bool)
    requires c.Valid() && Shape(c, s) && p < |c.rows| && pdu < |c.rxRow|
    ensures AllHeld(s, RxExternal(c, s, p, pdu, ok, startOk, stopOk).s)
  {
    hide RowShape, Arbitrate, ResetSessionTimer;
    ResetHolds(c, s);
    ArbitrateHolds(c, s, p, pdu, startOk, stopOk);
  }

  lemma {:induction false} RxLocalHolds(c: Config, s: State, p: nat, ok: bool)
    requires c.Valid() && Shape(c, s) && p < |c.rows|
    ensures AllHeld(s, RxLocal(c, s, p, ok))
  {
    hide RowShape, ResetSessionTimer;
    ResetHolds(c, s);
  }

  lemma {:induction false} ResetHolds(c: Config, s: State)
    requires c.Valid() && Shape(c, s)
    ensures AllHeld(s, ResetSessionTimer(c, s))
  {
    hide RowShape;
  }

  lemma {:induction false} ArbitrateHolds(c: Config, s: State, p: nat, pdu: nat, startOk: bool, stopOk: bool)
    requires c.Valid() && Shape(c, s) && p < |c.rows| && pdu < |c.rxRow|
    ensures AllHeld(s, Arbitrate(c, s, p, pdu, startOk, stopOk))
  {
    hide RowShape;
  }

  lemma {:induction false} SendHolds(c: Config, s: State, p: nat, nrc: byte, ok: bool)
    requires c.Valid() && Shape(c, s) && p < |c.rows|
    ensures AllHeld(s, SendResponse(c, s, p, nrc, ok).s)
  {
    hide RowShape;
  }

  lemma {:induction false} WaitingHolds(c: Config, s: State, p: nat, ok: bool)
    requires c.Valid() && Shape(c, s) && p < |c.rows|
    ensures AllHeld(s, MainWaiting(c, s, p, ok).s)
  {
    hide SendResponse, P2StarCycles;
    var again := Set(c, s, p, s.rows[p].(stateTimeout := P2StarCycles(c, p, s.rows[p].session, 0)));
    SendHolds(c, again, p, RESPONSE_PENDING, ok);
    SendHolds(c, again, p, GENERAL_REJECT, ok);
    hide RowShape;
  }

  lemma {:induction false} PreemptingHolds(c: Config, s: State, p: nat, ok: bool)
    requires c.Valid() && Shape(c, s) && p < |c.rows|
    ensures AllHeld(s, MainPreempting(c, s, p, ok).s)
  {
    hide SendResponse;
    SendHolds(c, s, p, BUSY_REPEAT_REQUEST, ok);
    var told := TellBusy(c, s, p, ok);
    assert AllHeld(s, told);
    var timed := Set(c, told, p, told.rows[p].(preemptTimeout := Decrement(told.rows[p].preemptTimeout)));
    GiveWayHolds(c, timed, p);
  }

  lemma {:induction false} GiveWayHolds(c: Config, s: State, p: nat)
    requires c.Valid() && Shape(c, s) && p < |c.rows|
    ensures AllHeld(s, GiveWay(c, s, p))
  {
    hide RowShape;
  }

  lemma {:induction false} S3Holds(c: Config, s: State, p: nat)
    requires c.Valid() && Shape(c, s) && p < |c.rows|
    ensures AllHeld(s, MainS3(c, s, p))
  {
    hide RowShape;
  }

  lemma {:induction false} TransmitHolds(c: Config, s: State, p: nat, ok: bool)
    requires c.Valid() && Shape(c, s) && p < |c.rows|
    ensures AllHeld(s, MainTransmit(c, s, p, ok).s)
  {
    hide RowShape;
  }

  lemma {:induction false} MainRowHolds(c: Config, s: State, p: nat, ok: bool)
    requires c.Valid() && Shape(c, s) && p < |c.rows|
    ensures AllHeld(s, MainRow(c, s, p, ok).s)
  {
    hide RowShape, MainS3, MainWaiting, MainTransmit, MainPreempting;
    S3Holds(c, s, p);
    var s' := MainS3(c, s, p);
    WaitingHolds(c, s', p, ok);
    TransmitHolds(c, s', p, ok);
    PreemptingHolds(c, s', p, ok);
  }

  lemma {:induction false} MainRowsHold(c: Config, s: State, oks: seq<bool>, n: nat)
    requires c.Valid() && Shape(c, s) && n <= |c.rows| == |oks|
    ensures AllHeld(s, MainRows(c, s, oks, n).s)
  {
    hide RowShape, MainRow;
    if n > 0 {
      MainRowsHold(c, s, oks, n - 1);
      MainRowHolds(c, MainRows(c, s, oks, n - 1).s, n - 1, oks[n - 1]);
    }
  }
}
