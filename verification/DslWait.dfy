/** The response-pending timers of the DSL: when a request that the DSD never answers ends. */
module DslWait {
  import opened Dsl
  import opened Prelude

  // The number of main-function calls until the row gives its request up.
  function Remaining(c: Config, r: Row, p: nat): (n: nat)
    requires c.Valid() && p < |c.rows|
    ensures n >= 1
  {
    AtLeastOne(r.stateTimeout)
    + if c.forcePending then r.pendingCount * AtLeastOne(P2StarCycles(c, p, r.session, 0)) else 0
  }

  predicate SameWait(a: Row, b: Row) {
    a.tx == b.tx && a.stateTimeout == b.stateTimeout && a.pendingCount == b.pendingCount
  }

  predicate AnswersRow(c: Config, e: Event, p: nat) { (e.DsdDone? || e.DsdPending?) && OnRxRow(c, e.rxPdu, p) }

  // The DSD stays silent on row p, and the row's session goes on: it is neither changed, nor is
  // its protocol stopped in favour of a preempting one.
  ghost predicate Undisturbed(c: Config, s: State, es: seq<Event>, p: nat)
    requires c.Valid() && Shape(c, s) && EventsOk(c, es) && p < |c.rows|
    decreases es
  {
    es != [] ==>
      && !AnswersRow(c, es[0], p)
      && Step(c, s, es[0]).s.rows[p].session == s.rows[p].session
      && Step(c, s, es[0]).s.rows[p].started == s.rows[p].started
      && Undisturbed(c, Step(c, s, es[0]).s, es[1..], p)
  }

  function Mains(es: seq<Event>): nat {
    if es == [] then 0 else (if es[0].Main? then 1 else 0) + Mains(es[1..])
  }

  // How many 0x78 responses the main function has started for row p.
  function PendingIn(nrcs: seq<(nat, byte)>, p: nat): nat {
    if nrcs == [] then 0
    else PendingIn(nrcs[..|nrcs| - 1], p) + if nrcs[|nrcs| - 1] == (p, RESPONSE_PENDING) then 1 else 0
  }

  function PendingSent(c: Config, s: State, es: seq<Event>, p: nat): nat
    requires c.Valid() && Shape(c, s) && EventsOk(c, es) && p < |c.rows|
    decreases es
  {
    if es == [] then 0
    else
      var r := Step(c, s, es[0]);
      (if es[0].Main? then PendingIn(r.reply.nrcs, p) else 0) + PendingSent(c, r.s, es[1..], p)
  }

  // Outside the main function nothing but the DSD moves the wait of row p.
  lemma {:induction false} OtherEventsKeepWait(c: Config, s: State, e: Event, p: nat)
    requires c.Valid() && Inv(c, s) && EventOk(c, e) && p < |c.rows|
    requires s.rows[p].tx.ProvidedToDsd? && !e.Main? && !AnswersRow(c, e, p)
    ensures SameWait(s.rows[p], Step(c, s, e).s.rows[p])
  {
    hide StartOfReception, CopyRxData, RxIndication, MainRows, CopyTxData, TxConfirmation, DsdProcessingDone,
      DsdSendResponsePending, RowOk;
    match e
    case StartRx(pdu, len, internal) => StartRxKeepsWait(c, s, pdu, len, internal, p);
    case CopyRx(pdu, chunk) => CopyRxKeepsWait(c, s, pdu, chunk, p);
    case EndRx(pdu, ok, startOk, stopOk) => EndRxKeepsWait(c, s, pdu, ok, startOk, stopOk, p);
    case DsdDone(pdu, suppressed, response) => DsdDoneKeepsWait(c, s, pdu, suppressed, response, p);
    case DsdPending(pdu, taken) => DsdPendingKeepsWait(c, s, pdu, taken, p);
    case CopyTx(pdu, n) => CopyTxKeepsWait(c, s, pdu, n, p);
    case EndTx(pdu) => EndTxKeepsWait(c, s, pdu, p);
    case ChangeSession(_) =>
  }

  lemma {:induction false} StartRxKeepsWait(c: Config, s: State, pdu: nat, len: nat, internal: bool, p: nat)
    requires c.Valid() && Shape(c, s) && p < |c.rows|
    ensures SameWait(s.rows[p], StartOfReception(c, s, pdu, len, internal).s.rows[p])
  {
  }

  lemma {:induction false} CopyRxKeepsWait(c: Config, s: State, pdu: nat, chunk: seq<byte>, p: nat)
    requires c.Valid() && Shape(c, s) && p < |c.rows|
    ensures SameWait(s.rows[p], CopyRxData(c, s, pdu, chunk).s.rows[p])
  {
    hide Write;
  }

  lemma {:induction false} DsdDoneKeepsWait(c: Config, s: State, pdu: nat, suppressed: bool, response: seq<byte>,
                                            p: nat)
    requires c.Valid() && Shape(c, s) && p < |c.rows| && !OnRxRow(c, pdu, p)
    ensures SameWait(s.rows[p], DsdProcessingDone(c, s, pdu, suppressed, response).s.rows[p])
  {
  }

  lemma {:induction false} DsdPendingKeepsWait(c: Config, s: State, pdu: nat, taken: bool, p: nat)
    requires c.Valid() && Inv(c, s) && p < |c.rows| && !OnRxRow(c, pdu, p)
    ensures SameWait(s.rows[p], DsdSendResponsePending(c, s, pdu, taken).s.rows[p])
  {
    hide RowOk, SendResponse;
    if pdu < |c.rxRow| && s.rows[c.rxRow[pdu]].tx.ProvidedToDsd? {
      SendResponseKeepsInv(c, s, c.rxRow[pdu], RESPONSE_PENDING, taken);
    }
  }

  lemma {:induction false} CopyTxKeepsWait(c: Config, s: State, pdu: nat, n: nat, p: nat)
    requires c.Valid() && Shape(c, s) && p < |c.rows| && s.rows[p].tx.ProvidedToDsd?
    ensures SameWait(s.rows[p], CopyTxData(c, s, pdu, n).s.rows[p])
  {
    hide RowShape;
  }

  lemma {:induction false} EndTxKeepsWait(c: Config, s: State, pdu: nat, p: nat)
    requires c.Valid() && Inv(c, s) && p < |c.rows| && s.rows[p].tx.ProvidedToDsd?
    ensures SameWait(s.rows[p], TxConfirmation(c, s, pdu).s.rows[p])
  {
    if pdu < |c.txRow| { assert RowOk(c, s.active, c.txRow[pdu], s.rows[c.txRow[pdu]]); }
  }

  lemma {:induction false} EndRxKeepsWait(c: Config, s: State, pdu: nat, ok: bool, startOk: bool, stopOk: bool, p: nat)
    requires c.Valid() && Inv(c, s) && p < |c.rows| && s.rows[p].tx.ProvidedToDsd?
    ensures SameWait(s.rows[p], RxIndication(c, s, pdu, ok, startOk, stopOk).s.rows[p])
  {
    assert s.rows[p].rx.ProvidedToDsd? by { assert RowOk(c, s.active, p, s.rows[p]); }
    hide RxExternal, RxLocal, RowOk;
    if pdu < |c.rxRow| {
      if c.rxRow[pdu] != p { RxExternalKeepsWait(c, s, c.rxRow[pdu], pdu, ok, startOk, stopOk, p); }
      RxLocalKeepsWait(c, s, c.rxRow[pdu], ok, p);
    }
  }

  lemma {:induction false} ResetKeepsWait(c: Config, s: State, p: nat)
    requires c.Valid() && Shape(c, s) && p < |c.rows|
    ensures SameWait(s.rows[p], ResetSessionTimer(c, s).rows[p])
  {
  }

  lemma {:induction false} RxExternalKeepsWait(c: Config, s: State, q: nat, pdu: nat, ok: bool, startOk: bool,
                                               stopOk: bool, p: nat)
    requires c.Valid() && Shape(c, s) && p < |c.rows| && q < |c.rows| && pdu < |c.rxRow| && q != p
    ensures SameWait(s.rows[p], RxExternal(c, s, q, pdu, ok, startOk, stopOk).s.rows[p])
  {
    hide Arbitrate, ResetSessionTimer;
    ResetKeepsWait(c, s, p);
    ArbitrateKeepsWait(c, s, q, pdu, startOk, stopOk, p);
  }

  lemma {:induction false} RxLocalKeepsWait(c: Config, s: State, q: nat, ok: bool, p: nat)
    requires c.Valid() && Shape(c, s) && p < |c.rows| && q < |c.rows|
    ensures SameWait(s.rows[p], RxLocal(c, s, q, ok).rows[p])
  {
    hide ResetSessionTimer;
    ResetKeepsWait(c, s, p);
  }

  lemma {:induction false} ArbitrateKeepsWait(c: Config, s: State, q: nat, pdu: nat, startOk: bool, stopOk: bool,
                                              p: nat)
    requires c.Valid() && Shape(c, s) && p < |c.rows| && q < |c.rows| && pdu < |c.rxRow|
    ensures q != p ==> SameWait(s.rows[p], Arbitrate(c, s, q, pdu, startOk, stopOk).rows[p])
  {
    hide RowShape;
  }

  predicate SameOrClosed(a: Row, b: Row) { b == a || (a.started && b == Closed(a)) }

  // The main function treats every row by itself, but for that.
  lemma {:induction false} MainRowIsLocal(c: Config, s: State, q: nat, ok: bool, p: nat)
    requires c.Valid() && Inv(c, s) && q < |c.rows| && p < |c.rows| && p != q
    ensures SameOrClosed(s.rows[p], MainRow(c, s, q, ok).s.rows[p])
  {
    hide MainS3, MainWaiting, MainTransmit, MainPreempting, RowOk, RowShape, Closed;
    MainS3KeepsInv(c, s, q);
    MainS3IsLocal(c, s, q);
    var s' := MainS3(c, s, q);
    match s'.rows[q].tx
    case ProvidedToDsd => MainWaitingIsLocal(c, s', q, ok);
    case ResponseReady => MainTransmitIsLocal(c, s', q, ok);
    case PreemptNrc => MainPreemptingCloses(c, s', q, ok, p);
    case _ =>
  }

  lemma {:induction false} MainPreemptingCloses(c: Config, s: State, q: nat, ok: bool, p: nat)
    requires c.Valid() && Inv(c, s) && q < |c.rows| && p < |c.rows| && p != q && s.rows[q].tx.PreemptNrc?
    ensures SameOrClosed(s.rows[p], MainPreempting(c, s, q, ok).s.rows[p])
  {
    hide SendResponse, GiveWay, Closed;
    if s.preempting {
      assert RowOk(c, s.active, p, s.rows[p]);
      hide RowOk;
      SendResponseKeepsInv(c, s, q, BUSY_REPEAT_REQUEST, ok);
      var told := TellBusy(c, s, q, ok);
      var timed := Set(c, told, q, told.rows[q].(preemptTimeout := Decrement(told.rows[q].preemptTimeout)));
      assert timed.rows[p] == s.rows[p];
      GiveWayCloses(c, timed, q, p);
    }
  }

  lemma {:induction false} GiveWayCloses(c: Config, s: State, q: nat, p: nat)
    requires c.Valid() && Shape(c, s) && q < |c.rows| && p < |c.rows| && p != q
    requires s.active == Some(p) ==> s.rows[p].started
    ensures SameOrClosed(s.rows[p], GiveWay(c, s, q).rows[p])
  {
    hide RowShape;
  }

  lemma {:induction false} MainS3IsLocal(c: Config, s: State, q: nat)
    requires c.Valid() && Shape(c, s) && q < |c.rows|
    ensures var t := MainS3(c, s, q);
            && t.preempting == s.preempting && SameWait(s.rows[q], t.rows[q])
            && (t.rows[q].started ==> s.rows[q].started)
            && forall p | 0 <= p < |c.rows| && p != q :: t.rows[p] == s.rows[p]
  {
    hide RowShape;
  }

  lemma {:induction false} MainTransmitIsLocal(c: Config, s: State, q: nat, ok: bool)
    requires c.Valid() && Inv(c, s) && q < |c.rows| && s.rows[q].tx.ResponseReady?
    ensures var t := MainTransmit(c, s, q, ok).s;
            t.preempting == s.preempting && forall p | 0 <= p < |c.rows| && p != q :: t.rows[p] == s.rows[p]
  {
    assert c.rxRow[s.rows[q].diagReq] == q by { assert RowOk(c, s.active, q, s.rows[q]); }
  }

  // The wait of row q after one more call, given that it goes on or ends with this NRC.
  function Waited(c: Config, q: nat, r: Row): Row
    requires c.Valid() && q < |c.rows|
  {
    var count := Decrement(r.stateTimeout);
    if count > 0 then r.(stateTimeout := count)
    else if c.forcePending && r.pendingCount != 0 then
      r.(stateTimeout := P2StarCycles(c, q, r.session, 0), pendingCount := r.pendingCount - 1)
    else Release(r.(stateTimeout := P2StarCycles(c, q, r.session, 0)))
  }

  lemma {:induction false} MainWaitingIsLocal(c: Config, s: State, q: nat, ok: bool)
    requires c.Valid() && Inv(c, s) && q < |c.rows| && s.rows[q].tx.ProvidedToDsd?
    ensures var t := MainWaiting(c, s, q, ok).s;
            t.preempting == s.preempting && forall p | 0 <= p < |c.rows| && p != q :: t.rows[p] == s.rows[p]
  {
    hide SendResponse, RowShape, P2StarCycles, RowOk, AdjustP2Timing;
    var row := s.rows[q];
    if Decrement(row.stateTimeout) == 0 {
      WaitRestarted(c, s, q);
      var again := Set(c, s, q, row.(stateTimeout := P2StarCycles(c, q, row.session, 0)));
      var nrc := if c.forcePending && row.pendingCount != 0 then RESPONSE_PENDING else GENERAL_REJECT;
      NegativeResponseIsLocal(c, again, q, nrc, ok);
    }
  }

  lemma {:induction false} MainWaitingWaits(c: Config, s: State, q: nat, ok: bool)
    requires c.Valid() && Inv(c, s) && q < |c.rows| && s.rows[q].tx.ProvidedToDsd?
    ensures var r := MainWaiting(c, s, q, ok);
            var w := Waited(c, q, s.rows[q]);
            var row := r.s.rows[q];
            && SameWait(w, row) && row.rx == w.rx && row.rxBusy == w.rxBusy && row.session == w.session
            && row.started == w.started
            && (r.sent == Some(RESPONSE_PENDING) ==>
                  Decrement(s.rows[q].stateTimeout) == 0 && c.forcePending && s.rows[q].pendingCount != 0)
  {
    hide SendResponse, RowShape, P2StarCycles, RowOk;
    var row := s.rows[q];
    if Decrement(row.stateTimeout) == 0 {
      WaitRestarted(c, s, q);
      var again := Set(c, s, q, row.(stateTimeout := P2StarCycles(c, q, row.session, 0)));
      var nrc := if c.forcePending && row.pendingCount != 0 then RESPONSE_PENDING else GENERAL_REJECT;
      NegativeResponseIsLocal(c, again, q, nrc, ok);
    }
  }

  // Only the local transmit buffer of the row is touched.
  lemma {:induction false} NegativeResponseIsLocal(c: Config, s: State, q: nat, nrc: byte, ok: bool)
    requires c.Valid() && Inv(c, s) && q < |c.rows| && (s.rows[q].tx.ProvidedToDsd? || s.rows[q].tx.PreemptNrc?)
    ensures var r := SendResponse(c, s, q, nrc, ok);
            && r.s.preempting == s.preempting
            && (forall p | 0 <= p < |c.rows| && p != q :: r.s.rows[p] == s.rows[p])
            && SameWait(s.rows[q], r.s.rows[q]) && r.s.rows[q].rx == s.rows[q].rx
            && r.s.rows[q].rxBusy == s.rows[q].rxBusy && r.s.rows[q].session == s.rows[q].session
            && r.s.rows[q].started == s.rows[q].started
  {
    hide SendResponse, RowShape, RowOk;
    SendResponseKeepsInv(c, s, q, nrc, ok);
  }

  lemma {:induction false} SameOrClosedTwice(a: Row, b: Row, d: Row)
    requires SameOrClosed(a, b) && SameOrClosed(b, d)
    ensures SameOrClosed(a, d)
  {
  }

  // One more row of the main function.
  lemma {:induction false} OneMoreRow(c: Config, s: State, oks: seq<bool>, n: nat, p: nat)
    requires c.Valid() && Shape(c, s) && 1 <= n <= |c.rows| == |oks|
    ensures var before, r := MainRows(c, s, oks, n - 1), MainRows(c, s, oks, n);
            var turn := MainRow(c, before.s, n - 1, oks[n - 1]);
            && r.s == turn.s
            && PendingIn(r.reply.nrcs, p)
               == PendingIn(before.reply.nrcs, p) + if n - 1 == p && turn.sent == Some(RESPONSE_PENDING) then 1 else 0
  {
    hide MainRow, RowShape;
  }

  lemma {:induction false} NoRows(c: Config, s: State, oks: seq<bool>, p: nat)
    requires c.Valid() && Shape(c, s) && p < |c.rows| == |oks|
    ensures var r := MainRows(c, s, oks, 0); SameOrClosed(s.rows[p], r.s.rows[p]) && PendingIn(r.reply.nrcs, p) == 0
  {
    hide RowShape, MainRow;
  }

  // Before its own turn a row can only be closed.
  lemma {:induction false} RowsBefore(c: Config, s: State, oks: seq<bool>, n: nat, p: nat)
    requires c.Valid() && Inv(c, s) && n <= p < |c.rows| == |oks|
    ensures var r := MainRows(c, s, oks, n);
            SameOrClosed(s.rows[p], r.s.rows[p]) && PendingIn(r.reply.nrcs, p) == 0
  {
    hide MainRow, MainRows, PendingIn, RowOk, RowShape, SameOrClosed;
    if n == 0 {
      NoRows(c, s, oks, p);
    } else {
      RowsBefore(c, s, oks, n - 1, p);
      MainRowsKeepInv(c, s, oks, n - 1);
      OneMoreRow(c, s, oks, n, p);
      var before := MainRows(c, s, oks, n - 1);
      MainRowIsLocal(c, before.s, n - 1, oks[n - 1], p);
      SameOrClosedTwice(s.rows[p], before.s.rows[p], MainRows(c, s, oks, n).s.rows[p]);
    }
  }

  // And after it.
  lemma {:induction false} RowsAfter(c: Config, s: State, oks: seq<bool>, n: nat, p: nat)
    requires c.Valid() && Inv(c, s) && p < n <= |c.rows| == |oks|
    ensures var r := MainRows(c, s, oks, n);
            var at := MainRow(c, MainRows(c, s, oks, p).s, p, oks[p]);
            SameOrClosed(at.s.rows[p], r.s.rows[p])
            && PendingIn(r.reply.nrcs, p) == if at.sent == Some(RESPONSE_PENDING) then 1 else 0
  {
    hide MainRow, MainRows, PendingIn, RowOk, RowShape, SameOrClosed;
    var at := MainRow(c, MainRows(c, s, oks, p).s, p, oks[p]).s.rows[p];
    OneMoreRow(c, s, oks, n, p);
    if n - 1 == p {
      RowsBefore(c, s, oks, p, p);
      ClosedReflexive(at);
    } else {
      RowsAfter(c, s, oks, n - 1, p);
      MainRowsKeepInv(c, s, oks, n - 1);
      var before := MainRows(c, s, oks, n - 1).s;
      MainRowIsLocal(c, before, n - 1, oks[n - 1], p);
      SameOrClosedTwice(at, before.rows[p], MainRows(c, s, oks, n).s.rows[p]);
    }
  }

  lemma {:induction false} MainRowsByRow(c: Config, s: State, oks: seq<bool>, p: nat)
    requires c.Valid() && Inv(c, s) && |oks| == |c.rows| && p < |c.rows|
    ensures var before, r := MainRows(c, s, oks, p), MainRows(c, s, oks, |oks|);
            var at := MainRow(c, before.s, p, oks[p]);
            && SameOrClosed(s.rows[p], before.s.rows[p]) && SameOrClosed(at.s.rows[p], r.s.rows[p])
            && PendingIn(r.reply.nrcs, p) == if at.sent == Some(RESPONSE_PENDING) then 1 else 0
  {
    hide MainRow, MainRows, RowOk, RowShape, SameOrClosed;
    RowsBefore(c, s, oks, p, p);
    RowsAfter(c, s, oks, |oks|, p);
  }

  lemma {:induction false} ClosedReflexive(r: Row)
    ensures SameOrClosed(r, r)
  {
  }

  // One main-function call moves the wait of row p one step on, or ends it.
  lemma {:induction false} WaitedCountsDown(c: Config, p: nat, r: Row)
    requires c.Valid() && p < |c.rows|
    ensures var w := Waited(c, p, r);
            && (Remaining(c, r, p) > 1 ==>
                  w.tx == r.tx && Remaining(c, w, p) == Remaining(c, r, p) - 1
                  && w.pendingCount == (if Decrement(r.stateTimeout) == 0 then r.pendingCount - 1 else r.pendingCount))
            && (Remaining(c, r, p) == 1 ==>
                  w == Release(w) && (c.forcePending ==> r.pendingCount == 0) && Decrement(r.stateTimeout) == 0)
  {
    var k, x := r.pendingCount, AtLeastOne(P2StarCycles(c, p, r.session, 0));
    if k > 0 {
      assert k * x == (k - 1) * x + x;
      assert (k - 1) * x >= 0;
    } else {
      assert k * x == 0;
    }
  }

  lemma {:induction false} WaitingRow(c: Config, s: State, p: nat, ok: bool)
    requires c.Valid() && Inv(c, s) && p < |c.rows| && s.rows[p].tx.ProvidedToDsd?
    ensures var r := MainRow(c, s, p, ok);
            var row := r.s.rows[p];
            && (row.started ==> s.rows[p].started)
            && (Remaining(c, s.rows[p], p) > 1 && row.session == s.rows[p].session ==>
                  row.tx.ProvidedToDsd? && Remaining(c, row, p) == Remaining(c, s.rows[p], p) - 1
                  && row.pendingCount + (if r.sent == Some(RESPONSE_PENDING) then 1 else 0) <= s.rows[p].pendingCount)
            && (Remaining(c, s.rows[p], p) == 1 ==>
                  row.tx.NotInUse? && row.rx.NotInUse? && !row.rxBusy && r.sent != Some(RESPONSE_PENDING))
  {
    hide MainS3, MainWaiting, RowOk, RowShape;
    MainS3KeepsInv(c, s, p);
    MainS3IsLocal(c, s, p);
    var s' := MainS3(c, s, p);
    MainWaitingWaits(c, s', p, ok);
    WaitedCountsDown(c, p, s'.rows[p]);
    LastCall(c, p, s.rows[p], s'.rows[p]);
    if s'.rows[p].session == s.rows[p].session {
      assert Remaining(c, s'.rows[p], p) == Remaining(c, s.rows[p], p);
    }
  }

  // Whether the next call is the last does not depend on the session.
  lemma {:induction false} LastCall(c: Config, p: nat, a: Row, b: Row)
    requires c.Valid() && p < |c.rows| && SameWait(a, b)
    ensures Remaining(c, a, p) == 1 <==> Remaining(c, b, p) == 1
  {
    hide P2StarCycles;
    AtLeastFactor(a.pendingCount, AtLeastOne(P2StarCycles(c, p, a.session, 0)));
    AtLeastFactor(a.pendingCount, AtLeastOne(P2StarCycles(c, p, b.session, 0)));
  }

  lemma {:induction false} AtLeastFactor(k: nat, x: nat)
    requires x >= 1
    ensures k * x >= k && (k == 0 ==> k * x == 0)
  {
  }

  // A row without a request at the DSD gets none from the main function.
  lemma {:induction false} IdleRow(c: Config, s: State, p: nat, ok: bool)
    requires c.Valid() && Shape(c, s) && p < |c.rows| && s.rows[p].tx.NotInUse?
    ensures var r := MainRow(c, s, p, ok);
            && r.sent.None? && r.s.rows[p].tx.NotInUse?
            && r.s.rows[p].rx == s.rows[p].rx && r.s.rows[p].rxBusy == s.rows[p].rxBusy
            && (!s.rows[p].started ==> !r.s.rows[p].started)
  {
    hide RowShape, MainWaiting, MainTransmit, MainPreempting;
  }

  lemma {:induction false} WaitingMain(c: Config, s: State, oks: seq<bool>, p: nat)
    requires c.Valid() && Inv(c, s) && |oks| == |c.rows| && p < |c.rows| && s.rows[p].tx.ProvidedToDsd?
    ensures var r := MainRows(c, s, oks, |oks|);
            var row := r.s.rows[p];
            var left := Remaining(c, s.rows[p], p);
            && (left > 1 && row.session == s.rows[p].session && row.started == s.rows[p].started ==>
                  row.tx.ProvidedToDsd? && Remaining(c, row, p) == left - 1
                  && row.pendingCount + PendingIn(r.reply.nrcs, p) <= s.rows[p].pendingCount)
            && (left == 1 ==>
                  row.tx.NotInUse? && row.rx.NotInUse? && !row.rxBusy && PendingIn(r.reply.nrcs, p) == 0)
  {
    hide RowOk, MainRow, MainRows, RowShape, Remaining;
    MainRowsByRow(c, s, oks, p);
    MainRowsKeepInv(c, s, oks, p);
    var before := MainRows(c, s, oks, p).s;
    if before.rows[p] == s.rows[p] {
      WaitingRow(c, before, p, oks[p]);
    } else {
      IdleRow(c, before, p, oks[p]);
    }
  }

  lemma {:induction false} WaitingStep(c: Config, s: State, e: Event, p: nat)
    requires c.Valid() && Inv(c, s) && EventOk(c, e) && p < |c.rows|
    requires s.rows[p].tx.ProvidedToDsd? && !AnswersRow(c, e, p)
    ensures var r := Step(c, s, e);
            var row := r.s.rows[p];
            var left := Remaining(c, s.rows[p], p);
            row.session == s.rows[p].session && row.started == s.rows[p].started ==>
              && (!e.Main? ==> row.tx.ProvidedToDsd? && Remaining(c, row, p) == left
                               && row.pendingCount == s.rows[p].pendingCount)
              && (e.Main? && left > 1 ==>
                    row.tx.ProvidedToDsd? && Remaining(c, row, p) == left - 1
                    && row.pendingCount + PendingIn(r.reply.nrcs, p) <= s.rows[p].pendingCount)
  {
    hide RowOk, MainRows, RowShape;
    if e.Main? { WaitingMain(c, s, e.oks, p); } else { OtherEventsKeepWait(c, s, e, p); }
  }

  // A request the DSD never answers stays at the DSD for as long as fewer main-function calls
  // than Remaining have happened.
  lemma {:induction false} Countdown(c: Config, s: State, es: seq<Event>, p: nat)
    requires c.Valid() && Inv(c, s) && EventsOk(c, es) && p < |c.rows|
    ensures s.rows[p].tx.ProvidedToDsd? && Undisturbed(c, s, es, p) && Mains(es) < Remaining(c, s.rows[p], p) ==>
              var row := Run(c, s, es).rows[p];
              && row.tx.ProvidedToDsd? && row.rx.ProvidedToDsd? && row.rxBusy
              && Remaining(c, row, p) == Remaining(c, s.rows[p], p) - Mains(es)
              && row.pendingCount + PendingSent(c, s, es, p) <= s.rows[p].pendingCount
              && row.session == s.rows[p].session
    decreases es
  {
    hide RowShape, Step, Remaining;
    assert RowOk(c, s.active, p, s.rows[p]);
    hide RowOk;
    if es != [] && s.rows[p].tx.ProvidedToDsd? && Undisturbed(c, s, es, p) {
      StepKeepsInv(c, s, es[0]);
      WaitingStep(c, s, es[0], p);
      Countdown(c, Step(c, s, es[0]).s, es[1..], p);
    }
  }

  predicate Cancelled(r: Row) { r.tx.NotInUse? && r.rx.NotInUse? && !r.rxBusy }

  // It is cancelled, and both its buffers released, on exactly the main-function call that
  // Remaining announces; until then at most pendingCount 0x78 responses were started.
  lemma {:induction false} CancelledExactlyThen(c: Config, s: State, es: seq<Event>, oks: seq<bool>, p: nat)
    requires c.Valid() && Inv(c, s) && EventsOk(c, es) && |oks| == |c.rows| && p < |c.rows|
    ensures s.rows[p].tx.ProvidedToDsd? && Undisturbed(c, s, es, p) && Mains(es) == Remaining(c, s.rows[p], p) - 1 ==>
              var last := MainRows(c, Run(c, s, es), oks, |oks|);
              && Run(c, s, es).rows[p].tx.ProvidedToDsd? && Cancelled(last.s.rows[p])
              && PendingSent(c, s, es, p) + PendingIn(last.reply.nrcs, p) <= s.rows[p].pendingCount
  {
    hide RowOk, RowShape, MainRows, Remaining, Undisturbed;
    Countdown(c, s, es, p);
    RunKeepsInv(c, s, es);
    if Run(c, s, es).rows[p].tx.ProvidedToDsd? { WaitingMain(c, Run(c, s, es), oks, p); }
  }

  // In main cycles: max(1, P2), and N more times max(1, P2*) when 0x78 responses are sent.
  function PatienceCycles(c: Config, p: nat, session: nat): (n: nat)
    requires c.Valid() && p < |c.rows|
    ensures n >= 1
  {
    AtLeastOne(c.Cycles(AdjustP2Timing(c.p2(session), c.rows[p].p2Adjust)))
    + if c.forcePending
      then c.maxPending * AtLeastOne(c.Cycles(AdjustP2Timing(c.p2Star(session), c.rows[p].p2StarAdjust)))
      else 0
  }

  // That is the wait of a request that has just been handed over.
  lemma {:induction false} WaitOfFreshRequest(c: Config, s: State, pdu: nat, ok: bool, startOk: bool, stopOk: bool)
    requires c.Valid() && Shape(c, s)
    ensures var r := RxIndication(c, s, pdu, ok, startOk, stopOk);
            r.reply.Indicated? ==>
              && pdu < |c.rxRow|
              && var p := c.rxRow[pdu];
                 var row := r.s.rows[p];
                 && row.tx.ProvidedToDsd? && row.pendingCount == c.maxPending
                 && Remaining(c, row, p) == PatienceCycles(c, p, row.session)
  {
    hide Arbitrate, ResetSessionTimer;
  }

  // The whole story of a request the DSD never answers, from any reachable state: it is at
  // the DSD until the call before the last, and gone with both its buffers after it.
  lemma {:induction false} SilenceEndsInCancellation(c: Config, before: seq<Event>, pdu: nat, startOk: bool,
                                                     stopOk: bool, es: seq<Event>, oks: seq<bool>)
    requires c.Valid() && EventsOk(c, before) && EventsOk(c, es) && |oks| == |c.rows| && pdu < |c.rxRow|
    ensures var p := c.rxRow[pdu];
            var r := RxIndication(c, Run(c, Init(c), before), pdu, true, startOk, stopOk);
            r.reply.Indicated? && Undisturbed(c, r.s, es, p)
              && Mains(es) == PatienceCycles(c, p, r.s.rows[p].session) - 1 ==>
              var last := MainRows(c, Run(c, r.s, es), oks, |oks|);
              && Run(c, r.s, es).rows[p].tx.ProvidedToDsd? && Cancelled(last.s.rows[p])
              && PendingSent(c, r.s, es, p) + PendingIn(last.reply.nrcs, p) <= c.maxPending
  {
    hide RxIndication, Run, Undisturbed, PendingSent, MainRows, RowOk, RowShape;
    InitInv(c);
    RunKeepsInv(c, Init(c), before);
    var s0 := Run(c, Init(c), before);
    RxKeepsInv(c, s0, pdu, true, startOk, stopOk);
    WaitOfFreshRequest(c, s0, pdu, true, startOk, stopOk);
    CancelledExactlyThen(c, RxIndication(c, s0, pdu, true, startOk, stopOk).s, es, oks, c.rxRow[pdu]);
  }
}
