/** How a preemption ends: when a row that waits for the active protocol stops waiting, and when it
    is left behind. */
module DslPreemption {
  import opened Dsl
  import opened DslExclusion
  import opened DslWait
  import opened Prelude

  predicate Waits(s: State, p: nat) { p < |s.rows| && s.rows[p].tx.PreemptNrc? }

  // The state of another row, and of the preemption, after the turn of a row.
  predicate Untouched(s: State, t: State, q: nat) {
    && |t.rows| == |s.rows| && t.preempting == s.preempting
    && forall p | 0 <= p < |s.rows| && p != q :: t.rows[p] == s.rows[p]
  }

  // A preemption ended between the two.
  predicate Ended(s: State, t: State) { s.preempting && !t.preempting }

  // ---------- One turn in the main function ----------

  lemma {:induction false} WaitingTurnStays(c: Config, s: State, q: nat, ok: bool)
    requires c.Valid() && Inv(c, s) && q < |c.rows| && s.rows[q].tx.ProvidedToDsd?
    ensures var t := MainWaiting(c, s, q, ok).s; Untouched(s, t, q) && !Waits(t, q)
  {
    hide MainWaiting, RowOk, RowShape;
    MainWaitingIsLocal(c, s, q, ok);
    MainWaitingWaits(c, s, q, ok);
  }

  lemma {:induction false} TransmitTurnStays(c: Config, s: State, q: nat, ok: bool)
    requires c.Valid() && Inv(c, s) && q < |c.rows| && s.rows[q].tx.ResponseReady?
    ensures var t := MainTransmit(c, s, q, ok).s; Untouched(s, t, q) && !Waits(t, q)
  {
    assert c.rxRow[s.rows[q].diagReq] == q by { assert RowOk(c, s.active, q, s.rows[q]); }
    hide RowOk, RowShape;
  }

  // The turn of a row that does not wait touches neither another row nor a preemption.
  lemma {:induction false} BusyTurn(c: Config, s: State, q: nat, ok: bool)
    requires c.Valid() && Inv(c, s) && q < |c.rows| && !Waits(s, q)
    ensures var t := MainRow(c, s, q, ok).s; Untouched(s, t, q) && !Waits(t, q)
  {
    hide MainS3, MainWaiting, MainTransmit, MainPreempting, RowOk, RowShape;
    MainS3KeepsInv(c, s, q);
    MainS3IsLocal(c, s, q);
    var s' := MainS3(c, s, q);
    match s'.rows[q].tx
    case ProvidedToDsd => WaitingTurnStays(c, s', q, ok);
    case ResponseReady => TransmitTurnStays(c, s', q, ok);
    case _ =>
  }

  // Row p, which waits, is let go by its own turn.
  predicate LetGo(s: State, p: nat) {
    && Waits(s, p) && s.preempting && s.active.Some? && s.active.value < |s.rows|
    && (s.rows[s.active.value].tx.NotInUse? || Decrement(s.rows[p].preemptTimeout) == 0)
  }

  // What its turn does otherwise.
  predicate WaitsOn(s: State, t: State, p: nat) {
    && Waits(s, p) && Waits(t, p) && t.active == s.active && Untouched(s, t, p)
    && t.rows[p].preemptTimeout
       == (if s.preempting then Decrement(s.rows[p].preemptTimeout) else s.rows[p].preemptTimeout)
    && (!s.preempting ==> t.rows[p].rx == s.rows[p].rx && t.rows[p].rxBusy == s.rows[p].rxBusy)
  }

  predicate WasLetGo(s: State, t: State, p: nat) {
    && |t.rows| == |s.rows| && p < |s.rows| && !t.preempting && t.active.None?
    && t.rows[p].tx.NotInUse? && t.rows[p].rx.NotInUse? && !t.rows[p].rxBusy
    && forall q | 0 <= q < |s.rows| && q != p ::
         t.rows[q] == if s.active == Some(q) then Closed(s.rows[q]) else s.rows[q]
  }

  lemma {:induction false} WaitingS3(c: Config, s: State, p: nat)
    requires c.Valid() && Inv(c, s) && Waits(s, p)
    ensures SamePreemption(s, MainS3(c, s, p), p)
  {
    assert s.active != Some(p) by { assert RowOk(c, s.active, p, s.rows[p]); }
    hide RowShape, RowOk;
  }

  lemma {:induction false} TellBusyStays(c: Config, s: State, p: nat, ok: bool)
    requires c.Valid() && Inv(c, s) && Waits(s, p)
    ensures var t := TellBusy(c, s, p, ok);
            && t.active == s.active && Untouched(s, t, p) && Waits(t, p)
            && t.rows[p].preemptTimeout == s.rows[p].preemptTimeout
  {
    hide SendResponse, RowOk;
    SendResponseKeepsInv(c, s, p, BUSY_REPEAT_REQUEST, ok);
  }

  lemma {:induction false} GiveWayExactly(c: Config, s: State, p: nat)
    requires c.Valid() && Shape(c, s) && Waits(s, p) && s.active != Some(p)
    ensures var t := GiveWay(c, s, p);
            if s.active.Some? && (s.rows[s.active.value].tx.NotInUse? || s.rows[p].preemptTimeout == 0)
            then WasLetGo(s, t, p) else t == s
  {
    hide RowShape;
  }

  lemma {:induction false} PreemptingTurn(c: Config, s: State, p: nat, ok: bool)
    requires c.Valid() && Inv(c, s) && Waits(s, p) && s.active != Some(p)
    ensures var t := MainPreempting(c, s, p, ok).s; if LetGo(s, p) then WasLetGo(s, t, p) else WaitsOn(s, t, p)
  {
    hide TellBusy, GiveWay, SendResponse, RowOk;
    if s.preempting {
      TellBusyStays(c, s, p, ok);
      var told := TellBusy(c, s, p, ok);
      var timed := Set(c, told, p, told.rows[p].(preemptTimeout := Decrement(told.rows[p].preemptTimeout)));
      GiveWayExactly(c, timed, p);
      assert MainPreempting(c, s, p, ok).s == GiveWay(c, timed, p);
      assert forall q | 0 <= q < |s.rows| && q != p :: timed.rows[q] == s.rows[q];
    }
  }

  // The session timer of the row plays no part in it.
  predicate SamePreemption(s: State, t: State, p: nat) {
    && p < |s.rows| && t.active == s.active && t.active != Some(p) && Untouched(s, t, p)
    && t.rows[p].tx == s.rows[p].tx && t.rows[p].rx == s.rows[p].rx && t.rows[p].rxBusy == s.rows[p].rxBusy
    && t.rows[p].preemptTimeout == s.rows[p].preemptTimeout
  }

  lemma {:induction false} TurnAfterS3(s: State, s': State, t: State, p: nat)
    requires SamePreemption(s, s', p)
    requires if LetGo(s', p) then WasLetGo(s', t, p) else WaitsOn(s', t, p)
    ensures if LetGo(s, p) then WasLetGo(s, t, p) else WaitsOn(s, t, p)
  {
    hide Closed;
  }

  // Exactly when the turn of a waiting row ends the preemption. Any other row that waits is then
  // left behind: it still waits, but there is no preemption to end.
  lemma {:induction false} WaitingTurn(c: Config, s: State, p: nat, ok: bool)
    requires c.Valid() && Inv(c, s) && Waits(s, p)
    ensures var t := MainRow(c, s, p, ok).s;
            && (if LetGo(s, p) then WasLetGo(s, t, p) else WaitsOn(s, t, p))
            && forall q | 0 <= q < |s.rows| && q != p && Waits(s, q) :: t.rows[q] == s.rows[q]
  {
    forall q | 0 <= q < |s.rows| && q != p && Waits(s, q) ensures s.active != Some(q) {
      assert RowOk(c, s.active, q, s.rows[q]);
    }
    TurnOutcome(c, s, p, ok);
    hide MainRow, RowOk, RowShape, Closed;
  }

  lemma {:induction false} TurnOutcome(c: Config, s: State, p: nat, ok: bool)
    requires c.Valid() && Inv(c, s) && Waits(s, p)
    ensures var t := MainRow(c, s, p, ok).s; if LetGo(s, p) then WasLetGo(s, t, p) else WaitsOn(s, t, p)
  {
    hide MainS3, MainWaiting, MainTransmit, MainPreempting, RowOk, RowShape, LetGo, WasLetGo, WaitsOn;
    WaitingS3(c, s, p);
    MainS3KeepsInv(c, s, p);
    PreemptingTurn(c, MainS3(c, s, p), p, ok);
    TurnAfterS3(s, MainS3(c, s, p), MainRow(c, s, p, ok).s, p);
  }

  // Any turn, seen from another row.
  lemma {:induction false} OtherTurn(c: Config, s: State, q: nat, ok: bool, p: nat)
    requires c.Valid() && Inv(c, s) && q < |c.rows| && p < |c.rows| && p != q
    ensures var t := MainRow(c, s, q, ok).s;
            && (t.rows[p] == s.rows[p] || Ended(s, t)) && (t.preempting ==> s.preempting)
            && (Waits(s, p) ==> t.rows[p] == s.rows[p])
            && (Waits(t, p) ==> Waits(s, p)) && (Waits(t, q) ==> Waits(s, q))
  {
    hide MainRow, RowOk, RowShape;
    if Waits(s, q) { WaitingTurn(c, s, q, ok); } else { BusyTurn(c, s, q, ok); }
  }

  // ---------- One main-function call ----------

  lemma {:induction false} RowsBeforeTurn(c: Config, s: State, oks: seq<bool>, n: nat, p: nat)
    requires c.Valid() && Inv(c, s) && n <= p < |c.rows| == |oks|
    ensures var t := MainRows(c, s, oks, n).s;
            && (t.rows[p] == s.rows[p] || Ended(s, t)) && (t.preempting ==> s.preempting)
            && (Waits(s, p) ==> t.rows[p] == s.rows[p])
  {
    hide MainRow, RowOk, RowShape;
    if n > 0 {
      RowsBeforeTurn(c, s, oks, n - 1, p);
      MainRowsKeepInv(c, s, oks, n - 1);
      OtherTurn(c, MainRows(c, s, oks, n - 1).s, n - 1, oks[n - 1], p);
    }
  }

  lemma {:induction false} RowsAfterTurn(c: Config, s: State, oks: seq<bool>, n: nat, p: nat)
    requires c.Valid() && Inv(c, s) && p < n <= |c.rows| == |oks|
    ensures var at, t := MainRows(c, s, oks, p + 1).s, MainRows(c, s, oks, n).s;
            && (t.rows[p] == at.rows[p] || Ended(at, t)) && (t.preempting ==> at.preempting)
            && (Waits(at, p) ==> t.rows[p] == at.rows[p])
  {
    hide MainRow, MainRows, RowOk, RowShape;
    if n > p + 1 {
      RowsAfterTurn(c, s, oks, n - 1, p);
      MainRowsKeepInv(c, s, oks, n - 1);
      OneMoreRow(c, s, oks, n, p);
      OtherTurn(c, MainRows(c, s, oks, n - 1).s, n - 1, oks[n - 1], p);
    }
  }

  // Row p is the only one that waits.
  ghost predicate Alone(s: State, p: nat) { Waits(s, p) && forall q | 0 <= q < |s.rows| && q != p :: !Waits(s, q) }

  ghost predicate NoneElse(s: State, p: nat) { forall q | 0 <= q < |s.rows| && q != p :: !Waits(s, q) }

  lemma {:induction false} AloneTurn(c: Config, s: State, q: nat, ok: bool, p: nat)
    requires c.Valid() && Inv(c, s) && q < |c.rows| && p < |c.rows| && NoneElse(s, p)
    ensures var t := MainRow(c, s, q, ok).s;
            && NoneElse(t, p) && (p != q ==> t.rows[p] == s.rows[p] && t.preempting == s.preempting)
  {
    hide MainRow, RowOk, RowShape;
    if Waits(s, q) { WaitingTurn(c, s, q, ok); } else { BusyTurn(c, s, q, ok); }
    forall r | 0 <= r < |c.rows| && r != p ensures !Waits(MainRow(c, s, q, ok).s, r) {
      if r != q { OtherTurn(c, s, q, ok, r); }
    }
  }

  lemma {:induction false} AloneBefore(c: Config, s: State, oks: seq<bool>, n: nat, p: nat)
    requires c.Valid() && Inv(c, s) && n <= p < |c.rows| == |oks| && NoneElse(s, p)
    ensures var t := MainRows(c, s, oks, n).s; NoneElse(t, p) && t.rows[p] == s.rows[p] && t.preempting == s.preempting
  {
    hide MainRow, RowOk, RowShape, NoneElse;
    if n > 0 {
      AloneBefore(c, s, oks, n - 1, p);
      MainRowsKeepInv(c, s, oks, n - 1);
      AloneTurn(c, MainRows(c, s, oks, n - 1).s, n - 1, oks[n - 1], p);
    }
  }

  lemma {:induction false} AloneAfter(c: Config, s: State, oks: seq<bool>, n: nat, p: nat)
    requires c.Valid() && Inv(c, s) && p < n <= |c.rows| == |oks| && NoneElse(s, p)
    ensures var at, t := MainRows(c, s, oks, p + 1).s, MainRows(c, s, oks, n).s;
            NoneElse(t, p) && t.rows[p] == at.rows[p] && t.preempting == at.preempting
  {
    hide MainRow, MainRows, RowOk, RowShape, NoneElse;
    MainRowsKeepInv(c, s, oks, n - 1);
    OneMoreRow(c, s, oks, n, p);
    if n > p + 1 {
      AloneAfter(c, s, oks, n - 1, p);
    } else {
      AloneBefore(c, s, oks, p, p);
    }
    AloneTurn(c, MainRows(c, s, oks, n - 1).s, n - 1, oks[n - 1], p);
  }

  // A main-function call finds one row waiting, and an active protocol when it comes to it: the
  // preemption ends, or its timer counts down and is not yet at zero.
  lemma {:induction false} AloneMain(c: Config, s: State, oks: seq<bool>, p: nat)
    requires c.Valid() && Inv(c, s) && |oks| == |c.rows| && p < |c.rows| && Alone(s, p) && s.preempting
    requires MainRows(c, s, oks, p).s.active.Some?
    ensures var t := MainRows(c, s, oks, |oks|).s;
            Waits(t, p) ==> t.preempting && t.rows[p].preemptTimeout == s.rows[p].preemptTimeout - 1 > 0
  {
    hide MainRow, MainRows, RowOk, RowShape;
    AloneBefore(c, s, oks, p, p);
    MainRowsKeepInv(c, s, oks, p);
    OneMoreRow(c, s, oks, p + 1, p);
    WaitingTurn(c, MainRows(c, s, oks, p).s, p, oks[p]);
    AloneAfter(c, s, oks, |oks|, p);
  }

  // ---------- Over runs ----------

  predicate TimerKept(s: State, t: State, p: nat) {
    && p < |s.rows| == |t.rows| && (s.preempting ==> t.preempting)
    && t.rows[p].preemptTimeout == s.rows[p].preemptTimeout
  }

  // Outside the main function the timer of a waiting row stands still.
  lemma {:induction false} OtherEventsWait(c: Config, s: State, e: Event, p: nat)
    requires c.Valid() && Inv(c, s) && EventOk(c, e) && !e.Main? && Waits(s, p)
    ensures TimerKept(s, Step(c, s, e).s, p)
  {
    hide StartOfReception, CopyRxData, RxIndication, DsdSendResponsePending, CopyTxData, MainRows, RowOk, RowShape;
    match e
    case StartRx(pdu, len, internal) => StartRxWaits(c, s, pdu, len, internal, p);
    case CopyRx(pdu, chunk) => CopyRxWaits(c, s, pdu, chunk, p);
    case EndRx(pdu, ok, startOk, stopOk) => RxWaits(c, s, pdu, ok, startOk, stopOk, p);
    case DsdPending(pdu, ok) => DsdPendingWaits(c, s, pdu, ok, p);
    case CopyTx(pdu, n) => CopyTxWaits(c, s, pdu, n, p);
    case _ =>
  }

  lemma {:induction false} StartRxWaits(c: Config, s: State, pdu: nat, len: nat, internal: bool, p: nat)
    requires c.Valid() && Shape(c, s) && p < |c.rows|
    ensures TimerKept(s, StartOfReception(c, s, pdu, len, internal).s, p)
  {
    hide RowShape;
  }

  lemma {:induction false} CopyRxWaits(c: Config, s: State, pdu: nat, chunk: seq<byte>, p: nat)
    requires c.Valid() && Shape(c, s) && p < |c.rows|
    ensures TimerKept(s, CopyRxData(c, s, pdu, chunk).s, p)
  {
    hide RowShape, Write;
  }

  lemma {:induction false} CopyTxWaits(c: Config, s: State, pdu: nat, n: nat, p: nat)
    requires c.Valid() && Shape(c, s) && p < |c.rows|
    ensures TimerKept(s, CopyTxData(c, s, pdu, n).s, p)
  {
    hide RowShape;
  }

  lemma {:induction false} DsdPendingWaits(c: Config, s: State, pdu: nat, ok: bool, p: nat)
    requires c.Valid() && Inv(c, s) && p < |c.rows|
    ensures TimerKept(s, DsdSendResponsePending(c, s, pdu, ok).s, p)
  {
    hide SendResponse, RowOk, P2StarCycles;
    if pdu < |c.rxRow| && s.rows[c.rxRow[pdu]].tx.ProvidedToDsd? {
      SendResponseKeepsInv(c, s, c.rxRow[pdu], RESPONSE_PENDING, ok);
    }
  }

  lemma {:induction false} RxWaits(c: Config, s: State, pdu: nat, ok: bool, startOk: bool, stopOk: bool, p: nat)
    requires c.Valid() && Shape(c, s) && Waits(s, p)
    ensures TimerKept(s, RxIndication(c, s, pdu, ok, startOk, stopOk).s, p)
  {
    hide RxExternal, RxLocal, RowShape;
    if pdu < |c.rxRow| {
      RxExternalWaits(c, s, c.rxRow[pdu], pdu, ok, startOk, stopOk, p);
      RxLocalWaits(c, s, c.rxRow[pdu], ok, p);
    }
  }

  lemma {:induction false} ResetWaits(c: Config, s: State, p: nat)
    requires c.Valid() && Shape(c, s) && p < |c.rows|
    ensures TimerKept(s, ResetSessionTimer(c, s), p)
  {
    hide RowShape;
  }

  lemma {:induction false} RxExternalWaits(c: Config, s: State, q: nat, pdu: nat, ok: bool, startOk: bool, stopOk: bool,
                                           p: nat)
    requires c.Valid() && Shape(c, s) && Waits(s, p) && q < |c.rows| && pdu < |c.rxRow|
    ensures TimerKept(s, RxExternal(c, s, q, pdu, ok, startOk, stopOk).s, p)
  {
    hide Arbitrate, ResetSessionTimer, RowShape;
    ResetWaits(c, s, p);
    ArbitrateWaits(c, s, q, pdu, startOk, stopOk, p);
  }

  lemma {:induction false} RxLocalWaits(c: Config, s: State, q: nat, ok: bool, p: nat)
    requires c.Valid() && Shape(c, s) && p < |c.rows| && q < |c.rows|
    ensures TimerKept(s, RxLocal(c, s, q, ok), p)
  {
    hide ResetSessionTimer, RowShape;
    ResetWaits(c, s, p);
  }

  lemma {:induction false} ArbitrateWaits(c: Config, s: State, q: nat, pdu: nat, startOk: bool, stopOk: bool, p: nat)
    requires c.Valid() && Shape(c, s) && Waits(s, p) && q < |c.rows| && pdu < |c.rxRow|
    ensures TimerKept(s, Arbitrate(c, s, q, pdu, startOk, stopOk), p)
  {
    hide RowShape;
  }

  // In every state of the run row p waits and no other row does, and when the main function comes
  // to it some protocol is active.
  ghost predicate WaitsAlone(c: Config, s: State, es: seq<Event>, p: nat)
    requires c.Valid() && Shape(c, s) && EventsOk(c, es) && p < |c.rows|
    decreases es
  {
    && Alone(s, p)
    && (es != [] ==>
          && (es[0].Main? ==> MainRows(c, s, es[0].oks, p).s.active.Some?)
          && WaitsAlone(c, Step(c, s, es[0]).s, es[1..], p))
  }

  // It does not do so for long: a single waiting row stops waiting within max(1, timeout)
  // main-function calls, whatever else happens.
  lemma {:induction false} WaitIsBounded(c: Config, s: State, es: seq<Event>, p: nat)
    requires c.Valid() && Inv(c, s) && EventsOk(c, es) && p < |c.rows| && s.preempting
    requires WaitsAlone(c, s, es, p)
    ensures var t := Run(c, s, es);
            && Mains(es) < AtLeastOne(s.rows[p].preemptTimeout)
            && t.preempting && t.rows[p].preemptTimeout == s.rows[p].preemptTimeout - Mains(es)
    decreases es
  {
    hide Step, Alone, RowShape, RowOk;
    if es != [] {
      var t := Step(c, s, es[0]).s;
      StepKeepsInv(c, s, es[0]);
      AloneStep(c, s, es[0], p);
      WaitIsBounded(c, t, es[1..], p);
    }
  }

  lemma {:induction false} AloneStep(c: Config, s: State, e: Event, p: nat)
    requires c.Valid() && Inv(c, s) && EventOk(c, e) && p < |c.rows| && s.preempting && Alone(s, p)
    requires Alone(Step(c, s, e).s, p) && (e.Main? ==> MainRows(c, s, e.oks, p).s.active.Some?)
    ensures var t := Step(c, s, e).s;
            && t.preempting
            && t.rows[p].preemptTimeout == s.rows[p].preemptTimeout - (if e.Main? then 1 else 0)
            && (e.Main? ==> t.rows[p].preemptTimeout > 0)
  {
    hide MainRows, RowOk, RowShape;
    if e.Main? { AloneMain(c, s, e.oks, p); } else { OtherEventsWait(c, s, e, p); }
  }

  // A row begins to wait with its configured timeout, in main cycles.
  lemma {:induction false} WaitBegins(c: Config, s: State, q: nat, pdu: nat, startOk: bool, stopOk: bool)
    requires c.Valid() && Inv(c, s) && q < |c.rows| && pdu < |c.rxRow|
    ensures var t := Arbitrate(c, s, q, pdu, startOk, stopOk);
            !Waits(s, q) && Waits(t, q) ==>
              t.preempting && t.rows[q].preemptTimeout == c.Cycles(c.rows[q].preemptTimeout)
  {
    hide RowShape, RowOk;
  }

  // ---------- Left behind ----------

  predicate OnlyMains(es: seq<Event>) { forall i | 0 <= i < |es| :: es[i].Main? }

  lemma {:induction false} LeftByRows(c: Config, s: State, oks: seq<bool>, n: nat, q: nat)
    requires c.Valid() && Inv(c, s) && n <= |c.rows| == |oks| && !s.preempting && Waits(s, q)
    ensures var t := MainRows(c, s, oks, n).s;
            !t.preempting && Waits(t, q) && t.rows[q].rx == s.rows[q].rx && t.rows[q].rxBusy == s.rows[q].rxBusy
  {
    hide MainRow, RowOk, RowShape;
    if n > 0 {
      LeftByRows(c, s, oks, n - 1, q);
      MainRowsKeepInv(c, s, oks, n - 1);
      var before := MainRows(c, s, oks, n - 1).s;
      if n - 1 == q {
        WaitingTurn(c, before, q, oks[q]);
      } else {
        OtherTurn(c, before, n - 1, oks[n - 1], q);
      }
    }
  }

  // A row that waits while no preemption is on waits for ever, its receive buffer as it was, as
  // far as the main function is concerned.
  lemma {:induction false} LeftBehind(c: Config, s: State, es: seq<Event>, q: nat)
    requires c.Valid() && Inv(c, s) && EventsOk(c, es) && OnlyMains(es) && !s.preempting && Waits(s, q)
    ensures var t := Run(c, s, es);
            !t.preempting && Waits(t, q) && t.rows[q].rx == s.rows[q].rx && t.rows[q].rxBusy == s.rows[q].rxBusy
    decreases es
  {
    hide MainRows, RowOk, RowShape;
    if es != [] {
      StepKeepsInv(c, s, es[0]);
      LeftByRows(c, s, es[0].oks, |es[0].oks|, q);
      LeftBehind(c, Step(c, s, es[0]).s, es[1..], q);
    }
  }

  // ---------- Two rows that wait ----------

  // Receive PDUs lead to three rows.
  ghost predicate ReachesThree(c: Config) {
    exists i, j, k | 0 <= i < |c.rxRow| && 0 <= j < |c.rxRow| && 0 <= k < |c.rxRow| ::
      c.rxRow[i] != c.rxRow[j] && c.rxRow[j] != c.rxRow[k] && c.rxRow[i] != c.rxRow[k]
  }

  ghost predicate TwoWait(s: State) { exists p, q | 0 <= p < q < |s.rows| :: Waits(s, p) && Waits(s, q) }

  lemma {:induction false} MainStartsNoWait(c: Config, s: State, oks: seq<bool>, n: nat, p: nat)
    requires c.Valid() && Inv(c, s) && n <= |c.rows| == |oks| && p < |c.rows|
    ensures Waits(MainRows(c, s, oks, n).s, p) ==> Waits(s, p)
  {
    hide MainRow, RowOk, RowShape;
    if n > 0 {
      MainStartsNoWait(c, s, oks, n - 1, p);
      MainRowsKeepInv(c, s, oks, n - 1);
      var before := MainRows(c, s, oks, n - 1).s;
      if n - 1 != p {
        OtherTurn(c, before, n - 1, oks[n - 1], p);
      } else if !Waits(before, p) {
        BusyTurn(c, before, p, oks[p]);
      }
    }
  }

  // Row p begins to wait only for another, active row, when its own reception ends.
  predicate BeginsToWait(c: Config, s: State, e: Event, p: nat) {
    e.EndRx? && OnRxRow(c, e.rxPdu, p) && s.active.Some? && s.active != Some(p)
  }

  lemma {:induction false} NewWait(c: Config, s: State, e: Event, p: nat)
    requires c.Valid() && Inv(c, s) && EventOk(c, e) && p < |c.rows| && !Waits(s, p)
    ensures Waits(Step(c, s, e).s, p) ==> BeginsToWait(c, s, e, p)
  {
    hide StartOfReception, CopyRxData, RxIndication, DsdSendResponsePending, CopyTxData, MainRows, RowOk, RowShape;
    match e
    case StartRx(pdu, len, internal) => StartRxStartsNoWait(c, s, pdu, len, internal, p);
    case CopyRx(pdu, chunk) => CopyRxStartsNoWait(c, s, pdu, chunk, p);
    case EndRx(pdu, ok, startOk, stopOk) => RxStartsWait(c, s, pdu, ok, startOk, stopOk, p);
    case DsdPending(pdu, ok) => DsdPendingStartsNoWait(c, s, pdu, ok, p);
    case CopyTx(pdu, n) => CopyTxStartsNoWait(c, s, pdu, n, p);
    case Main(oks) => MainStartsNoWait(c, s, oks, |oks|, p);
    case _ =>
  }

  lemma {:induction false} StartRxStartsNoWait(c: Config, s: State, pdu: nat, len: nat, internal: bool, p: nat)
    requires c.Valid() && Shape(c, s) && p < |c.rows| && !Waits(s, p)
    ensures !Waits(StartOfReception(c, s, pdu, len, internal).s, p)
  {
    hide RowShape;
  }

  lemma {:induction false} CopyRxStartsNoWait(c: Config, s: State, pdu: nat, chunk: seq<byte>, p: nat)
    requires c.Valid() && Shape(c, s) && p < |c.rows| && !Waits(s, p)
    ensures !Waits(CopyRxData(c, s, pdu, chunk).s, p)
  {
    hide RowShape, Write;
  }

  lemma {:induction false} CopyTxStartsNoWait(c: Config, s: State, pdu: nat, n: nat, p: nat)
    requires c.Valid() && Shape(c, s) && p < |c.rows| && !Waits(s, p)
    ensures !Waits(CopyTxData(c, s, pdu, n).s, p)
  {
    if pdu < |c.txRow| {
      var row := s.rows[c.txRow[pdu]];
      assert RowShape(c, c.txRow[pdu], row);
      assert Transmitting(row.tx) ==> NextOfResponse(row, n).0.tx.ProvidedToPdur?;
      assert Transmitting(row.localTx) ==> NextOfLocal(row, n).0.tx == row.tx;
      hide RowShape, NextOfResponse, NextOfLocal;
    }
  }

  lemma {:induction false} DsdPendingStartsNoWait(c: Config, s: State, pdu: nat, ok: bool, p: nat)
    requires c.Valid() && Inv(c, s) && p < |c.rows| && !Waits(s, p)
    ensures !Waits(DsdSendResponsePending(c, s, pdu, ok).s, p)
  {
    hide SendResponse, RowOk, P2StarCycles;
    if pdu < |c.rxRow| && s.rows[c.rxRow[pdu]].tx.ProvidedToDsd? {
      SendResponseKeepsInv(c, s, c.rxRow[pdu], RESPONSE_PENDING, ok);
    }
  }

  lemma {:induction false} RxStartsWait(c: Config, s: State, pdu: nat, ok: bool, startOk: bool, stopOk: bool, p: nat)
    requires c.Valid() && Inv(c, s) && p < |c.rows| && !Waits(s, p)
    ensures Waits(RxIndication(c, s, pdu, ok, startOk, stopOk).s, p) ==>
              OnRxRow(c, pdu, p) && s.active.Some? && s.active != Some(p)
  {
    hide RowShape, RowOk, RxExternal, RxLocal;
    if pdu < |c.rxRow| {
      RxExternalStartsWait(c, s, c.rxRow[pdu], pdu, ok, startOk, stopOk, p);
      RxLocalStartsNoWait(c, s, c.rxRow[pdu], ok, p);
    }
  }

  lemma {:induction false} RxExternalStartsWait(c: Config, s: State, q: nat, pdu: nat, ok: bool, startOk: bool,
                                                stopOk: bool, p: nat)
    requires c.Valid() && Inv(c, s) && q < |c.rows| && pdu < |c.rxRow| && p < |c.rows| && !Waits(s, p)
    ensures Waits(RxExternal(c, s, q, pdu, ok, startOk, stopOk).s, p) ==>
              p == q && s.active.Some? && s.active != Some(p)
  {
    hide RowShape, RowOk, Arbitrate, ResetSessionTimer;
    ResetStartsNoWait(c, s, p);
    ArbitrateStartsWait(c, s, q, pdu, startOk, stopOk, p);
  }

  lemma {:induction false} RxLocalStartsNoWait(c: Config, s: State, q: nat, ok: bool, p: nat)
    requires c.Valid() && Shape(c, s) && q < |c.rows| && p < |c.rows| && !Waits(s, p)
    ensures !Waits(RxLocal(c, s, q, ok), p)
  {
    hide RowShape, ResetSessionTimer;
    ResetStartsNoWait(c, s, p);
  }

  lemma {:induction false} ResetStartsNoWait(c: Config, s: State, p: nat)
    requires c.Valid() && Shape(c, s) && p < |c.rows|
    ensures ResetSessionTimer(c, s).rows[p].tx == s.rows[p].tx
  {
    hide RowShape;
  }

  lemma {:induction false} ArbitrateStartsWait(c: Config, s: State, q: nat, pdu: nat, startOk: bool, stopOk: bool,
                                               p: nat)
    requires c.Valid() && Inv(c, s) && q < |c.rows| && pdu < |c.rxRow| && p < |c.rows| && !Waits(s, p)
    ensures Waits(Arbitrate(c, s, q, pdu, startOk, stopOk), p) ==> p == q && s.active.Some? && s.active != Some(p)
  {
    assert RowOk(c, s.active, q, s.rows[q]);
    hide RowShape, RowOk;
  }

  lemma {:induction false} StepKeepsOneWaiting(c: Config, s: State, e: Event)
    requires c.Valid() && Inv(c, s) && EventOk(c, e) && !ReachesThree(c) && !TwoWait(s)
    ensures !TwoWait(Step(c, s, e).s)
  {
    hide Step;
    StepKeepsInv(c, s, e);
    var t := Step(c, s, e).s;
    if p, q :| 0 <= p < q < |t.rows| && Waits(t, p) && Waits(t, q) {
      if !Waits(s, p) {
        NewWait(c, s, e, p);
        ThirdRow(c, s, t, e, p, q);
      } else {
        NewWait(c, s, e, q);
        ThirdRow(c, s, t, e, q, p);
      }
    }
  }

  // If row p begins to wait beside row q, the active row is a third one.
  lemma {:induction false} ThirdRow(c: Config, s: State, t: State, e: Event, p: nat, q: nat)
    requires c.Valid() && Inv(c, s) && Inv(c, t) && EventOk(c, e) && t == Step(c, s, e).s && p != q
    requires BeginsToWait(c, s, e, p) && Waits(t, p) && Waits(t, q)
    ensures ReachesThree(c)
  {
    hide Step;
    if !Waits(s, q) {
      NewWait(c, s, e, q);
      assert false;
    }
    var a := s.active.value;
    assert RowOk(c, s.active, a, s.rows[a]) && RowOk(c, s.active, q, s.rows[q]);
    var k: nat :| OnRxRow(c, k, a);
    assert c.rxRow[e.rxPdu] == p && c.rxRow[s.rows[q].diagReq] == q && c.rxRow[k] == a;
  }

  lemma {:induction false} RunKeepsOneWaiting(c: Config, s: State, es: seq<Event>)
    requires c.Valid() && Inv(c, s) && EventsOk(c, es) && !ReachesThree(c) && !TwoWait(s)
    ensures !TwoWait(Run(c, s, es))
    decreases es
  {
    hide Step, ReachesThree, TwoWait, RowOk, RowShape;
    if es != [] {
      StepKeepsInv(c, s, es[0]);
      StepKeepsOneWaiting(c, s, es[0]);
      RunKeepsOneWaiting(c, Step(c, s, es[0]).s, es[1..]);
    }
  }

  // A request on a free row makes it wait for a protocol that is at work in the default session.
  lemma {:induction false} RequestWaits(c: Config, s: State, pdu: nat)
    requires c.Valid() && Shape(c, s) && pdu < |c.rxRow| && s.active.Some? && s.active.value != c.rxRow[pdu]
    requires var a := s.rows[s.active.value]; a.session == DEFAULT_SESSION && !a.tx.NotInUse?
    requires var row := s.rows[c.rxRow[pdu]]; row.rx.NotInUse? && !row.rxBusy && !row.started
    ensures var p := c.rxRow[pdu];
            var t := Run(c, s, RequestOn(pdu));
            && Waits(t, p) && t.preempting && t.active == s.active && t.rows[p].session == s.rows[p].session
            && forall q | 0 <= q < |c.rows| && q != p :: t.rows[q] == s.rows[q]
  {
    var p := c.rxRow[pdu];
    assert RowShape(c, p, s.rows[p]);
    var es := RequestOn(pdu);
    var s1 := StartOfReception(c, s, pdu, 2, false).s;
    var s2 := CopyRxData(c, s1, pdu, [1, 0]).s;
    assert s2.rows[p].rxBuf[0] == 1 && s2.rows[p].rxCount == 2 == s2.rows[p].rxLen
      && ReceivesExternal(s2.rows[p], pdu) by {
      OneWrite(s1.rows[p].rxBuf);
    }
    hide RowShape;
    var s3 := RxIndication(c, s2, pdu, true, true, true).s;
    assert es[1..] == [es[1], es[2]] && es[1..][1..] == [es[2]] && [es[2]][1..] == [];
    assert Run(c, s2, [es[2]]) == s3;
    assert Run(c, s1, es[1..]) == s3;
  }

  // The first of three rows is at work, the other two wait for it.
  lemma {:induction false} ThreeRequests(c: Config, i: nat, j: nat, k: nat)
    requires c.Valid() && i < |c.rxRow| && j < |c.rxRow| && k < |c.rxRow| && !c.rows[c.rxRow[i]].obd
    requires c.rxRow[i] != c.rxRow[j] && c.rxRow[j] != c.rxRow[k] && c.rxRow[i] != c.rxRow[k]
    ensures var es := RequestOn(i) + RequestOn(j) + RequestOn(k);
            && EventsOk(c, es)
            && var t := Run(c, Init(c), es);
               && Waits(t, c.rxRow[j]) && Waits(t, c.rxRow[k]) && t.preempting && t.active == Some(c.rxRow[i])
               && t.rows[c.rxRow[i]].tx.ProvidedToDsd?
               && forall q | 0 <= q < |c.rows| ::
                    && t.rows[q].session == DEFAULT_SESSION
                    && (q !in [c.rxRow[i], c.rxRow[j], c.rxRow[k]] ==> t.rows[q].tx.NotInUse?)
  {
    hide Run, RowShape;
    RequestReachesDsd(c, Init(c), i);
    var s1 := Run(c, Init(c), RequestOn(i));
    RequestWaits(c, s1, j);
    var s2 := Run(c, s1, RequestOn(j));
    RequestWaits(c, s2, k);
    RunAppend(c, Init(c), RequestOn(i), RequestOn(j));
    RunAppend(c, Init(c), RequestOn(i) + RequestOn(j), RequestOn(k));
  }

  lemma {:induction false} ThreeRowsMakeTwoWait(c: Config)
    requires c.Valid() && ReachesThree(c)
    ensures exists es | EventsOk(c, es) :: TwoWait(Run(c, Init(c), es))
  {
    hide Run, RowShape;
    var i, j, k :| 0 <= i < |c.rxRow| && 0 <= j < |c.rxRow| && 0 <= k < |c.rxRow|
      && c.rxRow[i] != c.rxRow[j] && c.rxRow[j] != c.rxRow[k] && c.rxRow[i] != c.rxRow[k];
    if c.rows[c.rxRow[i]].obd { i, j := j, i; }
    ThreeRequests(c, i, j, k);
    hide Waits;
    assert TwoWait(Run(c, Init(c), RequestOn(i) + RequestOn(j) + RequestOn(k)));
  }

  // Some run has two rows waiting at once exactly if receive PDUs lead to three rows.
  lemma {:induction false} TwoWaitExactly(c: Config)
    requires c.Valid()
    ensures (exists es | EventsOk(c, es) :: TwoWait(Run(c, Init(c), es))) <==> ReachesThree(c)
  {
    if ReachesThree(c) {
      ThreeRowsMakeTwoWait(c);
    } else {
      InitInv(c);
      assert !TwoWait(Init(c));
      hide Run, RowShape, TwoWait, ReachesThree, Inv, Init;
      forall es | EventsOk(c, es) ensures !TwoWait(Run(c, Init(c), es)) {
        RunKeepsOneWaiting(c, Init(c), es);
      }
    }
  }

  // In every such configuration a row is left behind: the active protocol is done, and the next
  // main-function call lets only the first of the two rows go.
  lemma {:induction false} OneIsLeftBehind(c: Config, s: State, oks: seq<bool>, p: nat, q: nat)
    requires c.Valid() && Inv(c, s) && |oks| == |c.rows| && p < q < |c.rows| && Waits(s, p) && Waits(s, q)
             && s.preempting
    requires s.active.Some? && s.rows[s.active.value].tx.NotInUse?
    requires forall r | 0 <= r < |c.rows| && r != p && r != q :: s.rows[r].tx.NotInUse?
    requires forall r | 0 <= r < |c.rows| :: s.rows[r].session == DEFAULT_SESSION
    ensures var t := MainRows(c, s, oks, |oks|).s; !Waits(t, p) && Waits(t, q) && !t.preempting
  {
    hide MainRow, MainRows, RowOk, RowShape;
    RestingRows(c, s, oks, p, p);
    OneMoreRow(c, s, oks, p + 1, p);
    WaitingTurn(c, s, p, oks[p]);
    RowsAfterTurn(c, s, oks, q, p);
    RowsAfterTurn(c, s, oks, |oks|, p);
    MainRowsKeepInv(c, s, oks, p + 1);
    MainStartsNoWaitAfter(c, s, oks, p + 1, |oks|, p);
    RowsBeforeTurn(c, s, oks, q, q);
    MainRowsKeepInv(c, s, oks, q);
    OneMoreRow(c, s, oks, q + 1, q);
    WaitingTurn(c, MainRows(c, s, oks, q).s, q, oks[q]);
    RowsAfterTurn(c, s, oks, |oks|, q);
  }

  lemma {:induction false} RestingRows(c: Config, s: State, oks: seq<bool>, n: nat, p: nat)
    requires c.Valid() && Shape(c, s) && n <= p < |c.rows| == |oks|
    requires forall r | 0 <= r < p :: s.rows[r].tx.NotInUse? && s.rows[r].session == DEFAULT_SESSION
    ensures MainRows(c, s, oks, n).s == s
  {
    hide RowShape, MainWaiting, MainTransmit, MainPreempting;
    if n > 0 { RestingRows(c, s, oks, n - 1, p); }
  }

  lemma {:induction false} MainStartsNoWaitAfter(c: Config, s: State, oks: seq<bool>, m: nat, n: nat, p: nat)
    requires c.Valid() && Inv(c, s) && m <= n <= |c.rows| == |oks| && p < |c.rows|
    ensures Waits(MainRows(c, s, oks, n).s, p) ==> Waits(MainRows(c, s, oks, m).s, p)
    decreases n
  {
    hide MainRow, MainRows, RowOk, RowShape;
    if m < n {
      MainStartsNoWaitAfter(c, s, oks, m, n - 1, p);
      MainRowsKeepInv(c, s, oks, n - 1);
      OneMoreRow(c, s, oks, n, p);
      var before := MainRows(c, s, oks, n - 1).s;
      if n - 1 != p {
        OtherTurn(c, before, n - 1, oks[n - 1], p);
      } else if !Waits(before, p) {
        BusyTurn(c, before, p, oks[p]);
      }
    }
  }

  lemma {:induction false} LeftBehindIsReached(c: Config, i: nat, j: nat, k: nat, oks: seq<bool>)
    requires c.Valid() && i < |c.rxRow| && j < |c.rxRow| && k < |c.rxRow| && !c.rows[c.rxRow[i]].obd
             && |oks| == |c.rows|
    requires c.rxRow[i] != c.rxRow[j] < c.rxRow[k] && c.rxRow[i] != c.rxRow[k]
    ensures var es := RequestOn(i) + RequestOn(j) + RequestOn(k) + [DsdDone(i, true, []), Main(oks)];
            && EventsOk(c, es)
            && var t := Run(c, Init(c), es);
               Inv(c, t) && !t.preempting && Waits(t, c.rxRow[k])
  {
    hide Run, MainRows, RowShape, RowOk;
    ThreeRequests(c, i, j, k);
    var es := RequestOn(i) + RequestOn(j) + RequestOn(k);
    var done := DsdDone(i, true, []);
    InitInv(c);
    RunKeepsInv(c, Init(c), es);
    var s1 := Run(c, Init(c), es);
    StepKeepsInv(c, s1, done);
    var s2 := Step(c, s1, done).s;
    OneIsLeftBehind(c, s2, oks, c.rxRow[j], c.rxRow[k]);
    MainRowsKeepInv(c, s2, oks, |oks|);
    RunOne(c, s1, done);
    RunOne(c, s2, Main(oks));
    RunAppend(c, s1, [done], [Main(oks)]);
    RunAppend(c, Init(c), es, [done] + [Main(oks)]);
    assert [done] + [Main(oks)] == [done, Main(oks)];
  }
}
