/** Which decision the DSL takes on every event, spelt out: which protocol wins, what a reception, a
    confirmation and a session timer lead to, and what a negative response says. */
module DslDecisions {
  import opened Dsl
  import opened DslExclusion
  import opened DslPreemption
  import opened DslWait
  import opened Prelude

  // ---------- Start-up ----------

  lemma {:induction false} StartsAtRest(c: Config, p: nat)
    requires c.Valid() && p < |c.rows|
    ensures var s := Init(c);
            var r := s.rows[p];
            && s.active.None? && !s.preempting && !s.busySent
            && r.rx.NotInUse? && r.localRx.NotInUse? && r.tx.NotInUse? && r.localTx.NotInUse? && !r.rxBusy
            && !r.started && !r.s3Started && r.session == 1
  {
  }

  // ---------- A request has come in ----------

  // PduR ends a reception into the external buffer of row p, complete, and not a tester-present
  // message without response.
  predicate Complete(c: Config, s: State, pdu: nat, p: nat) {
    && OnRxRow(c, pdu, p) && p < |s.rows|
    && s.rows[p].rx.ProvidedToPdur? && s.rows[p].rxPdu == Some(pdu)
    && (s.rows[p].rxLen == 0 || s.rows[p].rxLen == s.rows[p].rxCount)
    && |s.rows[p].rxBuf| >= 2 && !(s.rows[p].rxBuf[0] == 0x3E && s.rows[p].rxBuf[1] >= 0x80)
  }

  predicate Displaceable(c: Config, s: State, a: nat, p: nat)
    requires a < |s.rows| == |c.rows| && p < |c.rows|
  {
    c.rows[p].priority < c.rows[a].priority || s.rows[a].session == 1
  }

  predicate OthersSame(s: State, t: State, p: nat) {
    |t.rows| == |s.rows| && forall q | 0 <= q < |s.rows| && q != p :: t.rows[q] == s.rows[q]
  }

  predicate SameActive(s: State, t: State) { t.active == s.active && t.preempting == s.preempting }

  // The request is at the DSD, and its row runs.
  predicate Served(t: State, p: nat) {
    p < |t.rows| && t.rows[p].started && t.rows[p].tx.ProvidedToDsd? && t.rows[p].rx.ProvidedToDsd?
  }

  // A row that runs already is served; with no protocol active the row starts if the callout agrees.
  lemma {:induction false} ArrivalAlone(c: Config, s: State, pdu: nat, p: nat, startOk: bool, stopOk: bool)
    requires c.Valid() && Inv(c, s) && Complete(c, s, pdu, p) && (s.rows[p].started || s.active.None?)
    ensures var r := RxIndication(c, s, pdu, true, startOk, stopOk);
            && OthersSame(s, r.s, p)
            && if s.rows[p].started || startOk then Served(r.s, p) && r.s.active == Some(p) && r.reply.Indicated?
               else r.s == s && r.reply.Quiet?
  {
    assert RowOk(c, s.active, p, s.rows[p]);
    hide RowShape, RowOk;
  }

  // With another protocol active: a row of higher priority, or any row while the active one is in the
  // default session, takes over, or waits while the active one is at work. Any other is turned away.
  lemma {:induction false} ArrivalBeside(c: Config, s: State, pdu: nat, p: nat, a: nat, startOk: bool, stopOk: bool)
    requires c.Valid() && Inv(c, s) && Complete(c, s, pdu, p) && s.active == Some(a) && a != p
    ensures var r := RxIndication(c, s, pdu, true, startOk, stopOk);
            var t := r.s;
            if !Displaceable(c, s, a, p) then
              && OthersSame(s, t, p) && t.active == Some(a) && t.preempting == s.preempting
              && t.rows[p] == s.rows[p].(rx := NotInUse, rxBusy := false)
            else if !stopOk || (s.rows[a].tx.NotInUse? && !startOk) then t == s
            else if s.rows[a].tx.NotInUse? then
              && Served(t, p) && t.active == Some(p) && r.reply.Indicated?
              && t.rows[p].session == (if c.rows[p].obd then 5 else 1)
              && t.rows[a] == s.rows[a].(started := false)
              && forall q | 0 <= q < |c.rows| && q != p && q != a :: t.rows[q] == s.rows[q]
            else
              && OthersSame(s, t, p) && t.active == Some(a) && t.preempting && !t.busySent
              && Waits(t, p) && t.rows[p].rxBusy
  {
    assert RowOk(c, s.active, p, s.rows[p]) && a < |c.rows|;
    hide RowShape, RowOk, Arbitrate, HandOver;
    Arbitrated(c, s, p, pdu, a, startOk, stopOk);
    var s' := Arbitrate(c, s, p, pdu, startOk, stopOk);
    if s'.rows[p].started { HandedOver(c, s', p, pdu); }
  }

  lemma {:induction false} Arbitrated(c: Config, s: State, p: nat, pdu: nat, a: nat, startOk: bool, stopOk: bool)
    requires c.Valid() && Inv(c, s) && p < |c.rows| && pdu < |c.rxRow|
    requires s.active == Some(a) && a != p && a < |c.rows| && s.rows[p].rx.ProvidedToPdur?
    ensures !s.rows[p].started
    ensures var t := Arbitrate(c, s, p, pdu, startOk, stopOk);
            if !Displaceable(c, s, a, p) then
              && OthersSame(s, t, p) && t.active == Some(a) && t.preempting == s.preempting
              && t.rows[p] == s.rows[p].(rx := NotInUse, rxBusy := false)
            else if !stopOk || (s.rows[a].tx.NotInUse? && !startOk) then t == s
            else if s.rows[a].tx.NotInUse? then
              && t.active == Some(p) && t.rows[p].started
              && t.rows[p] == s.rows[p].(started := true, session := t.rows[p].session)
              && t.rows[p].session == (if c.rows[p].obd then 5 else 1)
              && t.rows[a] == s.rows[a].(started := false)
              && forall q | 0 <= q < |c.rows| && q != p && q != a :: t.rows[q] == s.rows[q]
            else
              && OthersSame(s, t, p) && t.active == Some(a) && t.preempting && !t.busySent
              && Waits(t, p) && t.rows[p].rxBusy && !t.rows[p].started
  {
    assert RowOk(c, s.active, p, s.rows[p]);
    hide RowShape, RowOk;
  }

  lemma {:induction false} HandedOver(c: Config, s: State, p: nat, pdu: nat)
    requires c.Valid() && Shape(c, s) && p < |c.rows| && pdu < |c.rxRow| && s.rows[p].started
    requires s.rows[p].rxLen == 0 || s.rows[p].rxLen == s.rows[p].rxCount
    ensures var r := HandOver(c, s, p, pdu);
            && OthersSame(s, r.s, p) && SameActive(s, r.s) && Served(r.s, p) && r.reply.Indicated?
            && r.s.rows[p].session == s.rows[p].session
  {
    hide RowShape;
  }

  // So, once the callouts agree: outside the default session of the active protocol, the row wins
  // exactly if its priority is higher, that is, its number smaller.
  lemma {:induction false} HigherPriorityWins(c: Config, s: State, pdu: nat, p: nat, a: nat)
    requires c.Valid() && Inv(c, s) && Complete(c, s, pdu, p) && !s.rows[p].started
    requires s.active == Some(a) && a < |c.rows| && s.rows[a].session != 1
    ensures var t := RxIndication(c, s, pdu, true, true, true).s;
            && (t.rows[p].started || Waits(t, p) <==> c.rows[p].priority < c.rows[a].priority || Waits(s, p))
            && (c.rows[p].priority >= c.rows[a].priority ==>
                  && t.active == Some(a) && t.rows[a].started && t.rows[a].tx == s.rows[a].tx
                  && t.rows[p].rx.NotInUse? && !t.rows[p].rxBusy)
  {
    assert RowOk(c, s.active, a, s.rows[a]) && RowOk(c, s.active, p, s.rows[p]);
    hide RowOk, RowShape, RxIndication;
    ArrivalBeside(c, s, pdu, p, a, true, true);
  }

  // ---------- Nobody displaces a protocol of higher priority ----------

  predicate NoHigher(c: Config, es: seq<Event>, a: nat)
    requires a < |c.rows|
  {
    forall i | 0 <= i < |es| && es[i].EndRx? && es[i].rxPdu < |c.rxRow| && c.rxRow[es[i].rxPdu] < |c.rows| ::
      c.rows[c.rxRow[es[i].rxPdu]].priority >= c.rows[a].priority
  }

  // In every state of the run row a is outside the default session.
  ghost predicate StaysOutside(c: Config, s: State, es: seq<Event>, a: nat)
    requires c.Valid() && Shape(c, s) && EventsOk(c, es) && a < |c.rows|
    decreases es
  {
    s.rows[a].session != 1 && (es != [] ==> StaysOutside(c, Step(c, s, es[0]).s, es[1..], a))
  }

  predicate Reigns(s: State, a: nat) { s.active == Some(a) && !s.preempting }

  // Requests of lower or equal priority never displace a protocol outside the default session,
  // whatever else happens.
  lemma {:induction false} NeverDisplaced(c: Config, s: State, es: seq<Event>, a: nat)
    requires c.Valid() && Inv(c, s) && EventsOk(c, es) && a < |c.rows| && Reigns(s, a)
    requires NoHigher(c, es, a) && StaysOutside(c, s, es, a)
    ensures Reigns(Run(c, s, es), a) && Run(c, s, es).rows[a].started
    decreases es
  {
    assert RowOk(c, s.active, a, s.rows[a]);
    hide RowOk, RowShape, Step;
    if es != [] {
      StepKeepsInv(c, s, es[0]);
      StepKeepsReign(c, s, es[0], a);
      assert NoHigher(c, es[1..], a);
      NeverDisplaced(c, Step(c, s, es[0]).s, es[1..], a);
    }
  }

  lemma {:induction false} StepKeepsReign(c: Config, s: State, e: Event, a: nat)
    requires c.Valid() && Inv(c, s) && EventOk(c, e) && a < |c.rows| && Reigns(s, a) && NoHigher(c, [e], a)
    requires s.rows[a].session != 1 && Step(c, s, e).s.rows[a].session != 1
    ensures Reigns(Step(c, s, e).s, a)
  {
    hide StartOfReception, CopyRxData, RxIndication, DsdProcessingDone, DsdSendResponsePending, SetSession, MainRows,
      CopyTxData, TxConfirmation, RowOk, RowShape;
    match e
    case StartRx(pdu, len, internal) => StartRxSameActive(c, s, pdu, len, internal);
    case CopyRx(pdu, chunk) => CopyRxSameActive(c, s, pdu, chunk);
    case EndRx(pdu, ok, startOk, stopOk) => assert [e][0] == e; RxKeepsReign(c, s, pdu, ok, startOk, stopOk, a);
    case DsdDone(pdu, suppressed, response) => DoneSameActive(c, s, pdu, suppressed, response);
    case DsdPending(pdu, ok) => PendingSameActive(c, s, pdu, ok);
    case CopyTx(pdu, n) => CopyTxSameActive(c, s, pdu, n);
    case EndTx(pdu) => EndTxSameActive(c, s, pdu);
    case ChangeSession(session) => SessionSameActive(c, s, session);
    case Main(oks) => MainKeepsReign(c, s, oks, |oks|, a);
  }

  lemma {:induction false} StartRxSameActive(c: Config, s: State, pdu: nat, len: nat, internal: bool)
    requires c.Valid() && Shape(c, s)
    ensures SameActive(s, StartOfReception(c, s, pdu, len, internal).s)
  {
  }

  lemma {:induction false} CopyRxSameActive(c: Config, s: State, pdu: nat, chunk: seq<byte>)
    requires c.Valid() && Shape(c, s)
    ensures SameActive(s, CopyRxData(c, s, pdu, chunk).s)
  {
  }

  lemma {:induction false} DoneSameActive(c: Config, s: State, pdu: nat, suppressed: bool, response: seq<byte>)
    requires c.Valid() && Shape(c, s)
    ensures SameActive(s, DsdProcessingDone(c, s, pdu, suppressed, response).s)
  {
  }

  lemma {:induction false} PendingSameActive(c: Config, s: State, pdu: nat, ok: bool)
    requires c.Valid() && Shape(c, s)
    ensures SameActive(s, DsdSendResponsePending(c, s, pdu, ok).s)
  {
    hide RowShape, P2StarCycles;
  }

  lemma {:induction false} CopyTxSameActive(c: Config, s: State, pdu: nat, n: nat)
    requires c.Valid() && Shape(c, s)
    ensures SameActive(s, CopyTxData(c, s, pdu, n).s)
  {
    hide RowShape, NextOfResponse, NextOfLocal;
  }

  lemma {:induction false} EndTxSameActive(c: Config, s: State, pdu: nat)
    requires c.Valid() && Shape(c, s)
    ensures SameActive(s, TxConfirmation(c, s, pdu).s)
  {
  }

  lemma {:induction false} SessionSameActive(c: Config, s: State, session: nat)
    requires c.Valid() && Shape(c, s)
    ensures SameActive(s, SetSession(c, s, session).s)
  {
  }

  lemma {:induction false} RxKeepsReign(c: Config, s: State, pdu: nat, ok: bool, startOk: bool, stopOk: bool, a: nat)
    requires c.Valid() && Inv(c, s) && a < |c.rows| && Reigns(s, a) && s.rows[a].session != 1
    requires pdu < |c.rxRow| ==> c.rows[c.rxRow[pdu]].priority >= c.rows[a].priority
    ensures Reigns(RxIndication(c, s, pdu, ok, startOk, stopOk).s, a)
  {
    assert RowOk(c, s.active, a, s.rows[a]);
    hide RowOk, RowShape, RxLocal, RxExternal;
    if pdu < |c.rxRow| {
      RxLocalSameActive(c, s, c.rxRow[pdu], ok);
      if ReceivesExternal(s.rows[c.rxRow[pdu]], pdu) {
        RxExternalKeepsReign(c, s, c.rxRow[pdu], pdu, ok, startOk, stopOk, a);
      }
    }
  }

  lemma {:induction false} RxExternalKeepsReign(c: Config, s: State, p: nat, pdu: nat, ok: bool, startOk: bool,
                                                stopOk: bool, a: nat)
    requires c.Valid() && Inv(c, s) && p < |c.rows| && pdu < |c.rxRow| && a < |c.rows| && Reigns(s, a)
    requires s.rows[p].rx.ProvidedToPdur? && s.rows[a].session != 1 && c.rows[p].priority >= c.rows[a].priority
    ensures Reigns(RxExternal(c, s, p, pdu, ok, startOk, stopOk).s, a)
  {
    assert RowOk(c, s.active, a, s.rows[a]) && RowOk(c, s.active, p, s.rows[p]);
    hide RowOk, RowShape, Arbitrate, HandOver;
    if p == a {
      ArbitrateStarted(c, s, p, pdu, startOk, stopOk);
    } else {
      Arbitrated(c, s, p, pdu, a, startOk, stopOk);
    }
    var s' := Arbitrate(c, s, p, pdu, startOk, stopOk);
    if s'.rows[p].started && (s'.rows[p].rxLen == 0 || s'.rows[p].rxLen == s'.rows[p].rxCount) {
      HandedOver(c, s', p, pdu);
    }
  }

  lemma {:induction false} ArbitrateStarted(c: Config, s: State, p: nat, pdu: nat, startOk: bool, stopOk: bool)
    requires c.Valid() && Shape(c, s) && p < |c.rows| && pdu < |c.rxRow| && s.rows[p].started
    ensures Arbitrate(c, s, p, pdu, startOk, stopOk) == s
  {
  }

  lemma {:induction false} RxLocalSameActive(c: Config, s: State, p: nat, ok: bool)
    requires c.Valid() && Shape(c, s) && p < |c.rows|
    ensures SameActive(s, RxLocal(c, s, p, ok))
  {
  }

  // One turn while no preemption is on: the active protocol changes only by the end of its session.
  lemma {:induction false} TurnKeepsReign(c: Config, s: State, q: nat, ok: bool, a: nat)
    requires c.Valid() && Inv(c, s) && q < |c.rows| && a < |c.rows|
    requires !s.preempting && (s.active == Some(a) || s.active.None?)
    ensures var t := MainRow(c, s, q, ok).s;
            && !t.preempting && (t.active == s.active || (t.active.None? && t.rows[a].session == 1))
            && (s.rows[a].session == 1 ==> t.rows[a].session == 1)
  {
    hide MainWaiting, MainTransmit, RowOk, RowShape, SendResponse;
    MainS3KeepsInv(c, s, q);
    WaitingSameActive(c, MainS3(c, s, q), q, ok, a);
    TransmitSameActive(c, MainS3(c, s, q), q, ok, a);
  }

  lemma {:induction false} WaitingSameActive(c: Config, s: State, q: nat, ok: bool, a: nat)
    requires c.Valid() && Shape(c, s) && q < |c.rows| && a < |c.rows|
    ensures var t := MainWaiting(c, s, q, ok).s; SameActive(s, t) && t.rows[a].session == s.rows[a].session
  {
    hide P2StarCycles, SendResponse;
    var row := s.rows[q].(stateTimeout := P2StarCycles(c, q, s.rows[q].session, 0));
    assert RowShape(c, q, row);
    hide RowShape;
    var again := Set(c, s, q, row);
    var nrc := if c.forcePending && s.rows[q].pendingCount != 0 then RESPONSE_PENDING else GENERAL_REJECT;
    SendSameActive(c, again, q, nrc, ok);
  }

  lemma {:induction false} SendSameActive(c: Config, s: State, q: nat, nrc: byte, ok: bool)
    requires c.Valid() && Shape(c, s) && q < |c.rows|
    ensures var t := SendResponse(c, s, q, nrc, ok).s;
            SameActive(s, t) && forall a | 0 <= a < |c.rows| :: t.rows[a].session == s.rows[a].session
  {
    hide RowShape;
  }

  lemma {:induction false} TransmitSameActive(c: Config, s: State, q: nat, ok: bool, a: nat)
    requires c.Valid() && Shape(c, s) && q < |c.rows| && a < |c.rows|
    ensures var t := MainTransmit(c, s, q, ok).s; SameActive(s, t) && t.rows[a].session == s.rows[a].session
  {
    hide RowShape;
  }

  lemma {:induction false} MainKeepsReign(c: Config, s: State, oks: seq<bool>, n: nat, a: nat)
    requires c.Valid() && Inv(c, s) && n <= |c.rows| == |oks| && a < |c.rows| && Reigns(s, a)
    ensures var t := MainRows(c, s, oks, n).s;
            && !t.preempting && (t.active == Some(a) || (t.active.None? && t.rows[a].session == 1))
  {
    hide MainRow, RowOk, RowShape;
    if n > 0 {
      MainKeepsReign(c, s, oks, n - 1, a);
      MainRowsKeepInv(c, s, oks, n - 1);
      TurnKeepsReign(c, MainRows(c, s, oks, n - 1).s, n - 1, oks[n - 1], a);
    }
  }

  // ---------- Other receptions ----------

  // A tester-present message without response stays in the DSL: its buffer is free again, and the
  // session timer of its row starts over.
  lemma {:induction false} TesterPresent(c: Config, s: State, pdu: nat, startOk: bool, stopOk: bool)
    requires c.Valid() && Inv(c, s) && pdu < |c.rxRow| && s.rows[c.rxRow[pdu]].rx.ProvidedToPdur?
    requires var row := s.rows[c.rxRow[pdu]];
             && row.rxPdu == Some(pdu) && (row.rxLen == 0 || row.rxLen == row.rxCount)
             && |row.rxBuf| >= 2 && row.rxBuf[0] == 0x3E && row.rxBuf[1] >= 0x80
    ensures var p, r := c.rxRow[pdu], RxIndication(c, s, pdu, true, startOk, stopOk);
            && r.reply.Quiet? && OthersSame(s, r.s, p) && r.s.active == s.active
            && r.s.rows[p].rx.NotInUse? && !r.s.rows[p].rxBusy && r.s.rows[p].tx == s.rows[p].tx
            && r.s.rows[p].s3Started && r.s.rows[p].s3Count == c.rows[p].s3 / c.period
  {
    hide RowShape;
  }

  // A reception that fails, or has the wrong length, is dropped; the session timer of the active row
  // starts over.
  lemma {:induction false} FailedReception(c: Config, s: State, pdu: nat, ok: bool, startOk: bool, stopOk: bool)
    requires c.Valid() && Inv(c, s) && pdu < |c.rxRow| && s.rows[c.rxRow[pdu]].rx.ProvidedToPdur?
    requires var row := s.rows[c.rxRow[pdu]];
             row.rxPdu == Some(pdu) && (!ok || (row.rxLen != 0 && row.rxLen != row.rxCount))
    ensures var p, r := c.rxRow[pdu], RxIndication(c, s, pdu, ok, startOk, stopOk);
            && r.reply.Quiet? && SameActive(s, r.s)
            && r.s.rows[p].rx.NotInUse? && !r.s.rows[p].rxBusy && r.s.rows[p].tx == s.rows[p].tx
            && (s.active.Some? ==>
                  var a := s.active.value;
                  r.s.rows[a].s3Started && r.s.rows[a].s3Count == c.rows[a].s3 / c.period)
  {
    hide RowShape;
  }

  // A reception in the extra buffer of row p has ended: the session timer of row q starts over, or is
  // as it was; unless it is row p, nothing else about it changes.
  predicate RestartsExactly(c: Config, s: State, t: State, p: nat, ok: bool, q: nat)
    requires c.Valid() && q < |c.rows| == |s.rows| == |t.rows| && p < |c.rows| && |s.rows[p].localRxBuf| >= 2
  {
    var row, before, after := s.rows[p], s.rows[q], t.rows[q];
    var restarts := if ok && (row.localRxLen == 0 || row.localRxLen == row.localRxCount)
                    then q == p && row.localRxBuf[0] == 0x3E && row.localRxBuf[1] >= 0x80
                    else s.active == Some(q);
    && (if restarts then after.s3Started && after.s3Count == c.rows[q].s3 / c.period
        else after.s3Started == before.s3Started && after.s3Count == before.s3Count)
    && (q != p ==> after == before.(s3Started := after.s3Started, s3Count := after.s3Count))
  }

  // The extra buffer: whatever came in there stays in the DSL and the buffer is free again. One that
  // fails restarts the session timer of the active row, a tester-present message that of its own.
  lemma {:induction false} LocalReception(c: Config, s: State, pdu: nat, ok: bool, startOk: bool, stopOk: bool)
    requires c.Valid() && Inv(c, s) && pdu < |c.rxRow|
    requires var row := s.rows[c.rxRow[pdu]];
             && row.localRx.ProvidedToPdur? && row.localRxPdu == Some(pdu)
             && !(row.rx.ProvidedToPdur? && row.rxPdu == Some(pdu))
    ensures var p, r := c.rxRow[pdu], RxIndication(c, s, pdu, ok, startOk, stopOk);
            var row, t := s.rows[p], r.s;
            && r.reply.Quiet? && SameActive(s, t) && |t.rows| == |s.rows|
            && t.rows[p].localRx.NotInUse? && t.rows[p].rx == row.rx && t.rows[p].tx == row.tx
            && forall q | 0 <= q < |c.rows| :: RestartsExactly(c, s, t, p, ok, q)
  {
    assert RowShape(c, c.rxRow[pdu], s.rows[c.rxRow[pdu]]);
    hide RowShape, RowOk, RxExternal, RxLocal, RestartsExactly;
    LocalEnds(c, s, c.rxRow[pdu], ok);
    forall q | 0 <= q < |c.rows| ensures RestartsExactly(c, s, RxLocal(c, s, c.rxRow[pdu], ok), c.rxRow[pdu], ok, q) {
      if q == c.rxRow[pdu] { LocalEndsOwn(c, s, q, ok); } else { LocalEndsOther(c, s, c.rxRow[pdu], ok, q); }
    }
  }

  lemma {:induction false} LocalEnds(c: Config, s: State, p: nat, ok: bool)
    requires c.Valid() && Shape(c, s) && p < |c.rows| && |s.rows[p].localRxBuf| >= 2
    ensures var row, t := s.rows[p], RxLocal(c, s, p, ok);
            && SameActive(s, t) && |t.rows| == |s.rows|
            && t.rows[p].localRx.NotInUse? && t.rows[p].rx == row.rx && t.rows[p].tx == row.tx
  {
    hide RowShape;
  }

  lemma {:induction false} LocalEndsOwn(c: Config, s: State, p: nat, ok: bool)
    requires c.Valid() && Shape(c, s) && p < |c.rows| && |s.rows[p].localRxBuf| >= 2
    ensures RestartsExactly(c, s, RxLocal(c, s, p, ok), p, ok, p)
  {
    hide RowShape, ResetSessionTimer;
    TimerReset(c, s, p);
  }

  lemma {:induction false} LocalEndsOther(c: Config, s: State, p: nat, ok: bool, q: nat)
    requires c.Valid() && Shape(c, s) && p < |c.rows| && q < |c.rows| && q != p && |s.rows[p].localRxBuf| >= 2
    ensures RestartsExactly(c, s, RxLocal(c, s, p, ok), p, ok, q)
  {
    hide RestartsExactly;
    OtherRowTimed(c, s, p, ok, q);
    TimerReset(c, s, q);
    RestartsOther(c, s, RxLocal(c, s, p, ok), p, ok, q);
  }

  lemma {:induction false} RestartsOther(c: Config, s: State, t: State, p: nat, ok: bool, q: nat)
    requires c.Valid() && Shape(c, s) && |t.rows| == |c.rows| && p < |c.rows| && q < |c.rows| && q != p
    requires |s.rows[p].localRxBuf| >= 2
    requires var fails := !ok || (s.rows[p].localRxLen != 0 && s.rows[p].localRxLen != s.rows[p].localRxCount);
             t.rows[q] == if fails && s.active == Some(q)
                          then s.rows[q].(s3Started := true, s3Count := c.rows[q].s3 / c.period) else s.rows[q]
    ensures RestartsExactly(c, s, t, p, ok, q)
  {
    hide RowShape;
  }

  lemma {:induction false} OtherRowTimed(c: Config, s: State, p: nat, ok: bool, q: nat)
    requires c.Valid() && Shape(c, s) && p < |c.rows| && q < |c.rows| && q != p
    ensures var fails := !ok || (s.rows[p].localRxLen != 0 && s.rows[p].localRxLen != s.rows[p].localRxCount);
            RxLocal(c, s, p, ok).rows[q] == if fails then ResetSessionTimer(c, s).rows[q] else s.rows[q]
  {
    hide RowShape, ResetSessionTimer, StartS3, IsTesterPresent;
  }

  lemma {:induction false} TimerReset(c: Config, s: State, q: nat)
    requires c.Valid() && Shape(c, s) && q < |c.rows|
    ensures ResetSessionTimer(c, s).rows[q]
         == if s.active == Some(q) then s.rows[q].(s3Started := true, s3Count := c.rows[q].s3 / c.period) else s.rows[q]
  {
    hide RowShape;
  }

  // The extra buffer as a reception into it begins, and as it goes on: what has come in, and how much
  // is announced.
  predicate LocalHolds(s: State, p: nat, pdu: nat, len: nat, got: seq<byte>) {
    && p < |s.rows| && var row := s.rows[p];
       row.localRx.ProvidedToPdur? && row.localRxPdu == Some(pdu) && row.localRxLen == len && row.localRxCount == |got|
       && |row.localRxBuf| == 8 && |got| <= 8 && row.localRxBuf[..|got|] == got
  }

  // Chunks are stored in either buffer one behind the other, as long as they fit; the room that is
  // left is reported. A chunk that does not fit, or that nobody waits for, changes nothing.
  lemma {:induction false} ChunksAreStored(c: Config, s: State, pdu: nat, chunk: seq<byte>, len: nat, got: seq<byte>)
    requires c.Valid() && Inv(c, s) && pdu < |c.rxRow|
    ensures var p, r := c.rxRow[pdu], CopyRxData(c, s, pdu, chunk);
            var row := s.rows[p];
            var external := row.rx.ProvidedToPdur? && row.rxPdu == Some(pdu);
            && OthersSame(s, r.s, p) && SameActive(s, r.s)
            && (external ==>
                  if row.rxCount + |chunk| <= c.rows[p].rxSize
                  then r.reply == Stored(true, c.rows[p].rxSize - (row.rxCount + |chunk|))
                  else r == Outcome(s, Refused))
            && (!external && LocalHolds(s, p, pdu, len, got) ==>
                  if |got| + |chunk| <= 8
                  then r.reply == Stored(false, 8 - (|got| + |chunk|)) && LocalHolds(r.s, p, pdu, len, got + chunk)
                  else r == Outcome(s, Refused))
            && (!external && !(row.localRx.ProvidedToPdur? && row.localRxPdu == Some(pdu)) ==> r == Outcome(s, Refused))
  {
    var p := c.rxRow[pdu];
    assert RowShape(c, p, s.rows[p]);
    hide RowShape, RowOk;
  }

  // ---------- What a reception is given ----------

  // Which buffer a reception gets, and the refusals in their order. One that is granted stops the
  // session timer of its row.
  lemma {:induction false} WhereItGoes(c: Config, s: State, pdu: nat, len: nat, internal: bool)
    requires c.Valid() && Inv(c, s) && pdu < |c.rxRow|
    ensures var p, t := c.rxRow[pdu], StartOfReception(c, s, pdu, len, internal).s;
            var row, reply := s.rows[p], StartOfReception(c, s, pdu, len, internal).reply;
            && OthersSame(s, t, p) && SameActive(s, t)
            && (if reply.Granted? then !t.rows[p].s3Started else t == s)
            && (reply.Granted? && !reply.external ==> LocalHolds(t, p, pdu, len, []) && t.rows[p].rx == row.rx)
            && (len > c.rows[p].rxSize ==> reply == Overflow)
            && (len <= c.rows[p].rxSize && row.rx.NotInUse? ==> reply == Granted(true, c.rows[p].rxSize))
            && (len <= c.rows[p].rxSize && !row.rx.NotInUse? ==>
                  if internal || !row.localRx.NotInUse? then reply == Busy
                  else if len <= 8 then reply == Granted(false, 8)
                  else reply == Refused)
  {
    assert RowOk(c, s.active, c.rxRow[pdu], s.rows[c.rxRow[pdu]]);
    hide RowOk, RowShape;
  }

  // PDUs that are not configured, or on which nothing is sent, are refused and change nothing.
  lemma {:induction false} UnknownPdu(c: Config, s: State, pdu: nat, len: nat, data: seq<byte>, n: nat, ok: bool)
    requires c.Valid() && Shape(c, s)
    ensures pdu >= |c.rxRow| ==>
              && StartOfReception(c, s, pdu, len, ok) == Outcome(s, Refused)
              && CopyRxData(c, s, pdu, data) == Outcome(s, Refused)
              && RxIndication(c, s, pdu, ok, ok, ok) == Outcome(s, Quiet)
    ensures pdu >= |c.txRow| ==>
              CopyTxData(c, s, pdu, n) == Outcome(s, Refused) && TxConfirmation(c, s, pdu) == Outcome(s, Quiet)
    ensures pdu < |c.txRow| && !Transmitting(s.rows[c.txRow[pdu]].tx) && !Transmitting(s.rows[c.txRow[pdu]].localTx) ==>
              CopyTxData(c, s, pdu, n) == Outcome(s, Refused) && TxConfirmation(c, s, pdu) == Outcome(s, Quiet)
  {
    hide RowShape;
  }

  // ---------- Session timers ----------

  // A confirmed response starts the session timer of its row over.
  lemma {:induction false} ConfirmedStartsS3(c: Config, s: State, pdu: nat)
    requires c.Valid() && Inv(c, s) && pdu < |c.txRow| && Transmitting(s.rows[c.txRow[pdu]].tx)
    ensures var r := TxConfirmation(c, s, pdu).s.rows[c.txRow[pdu]];
            r.s3Started && r.s3Count == c.rows[c.txRow[pdu]].s3 / c.period
  {
    assert RowOk(c, s.active, c.txRow[pdu], s.rows[c.txRow[pdu]]);
    hide RowOk, RowShape;
  }

  lemma {:induction false} SessionIsSet(c: Config, s: State, session: nat)
    requires c.Valid() && Inv(c, s) && s.active.Some?
    ensures var a, t := s.active.value, SetSession(c, s, session).s;
            && OthersSame(s, t, a) && SameActive(s, t)
            && t.rows[a].session == session && t.rows[a].s3Started && t.rows[a].s3Count == c.rows[a].s3 / c.period
            && t.rows[a].tx == s.rows[a].tx && t.rows[a].rx == s.rows[a].rx
  {
    hide RowShape;
  }

  // A row at rest, outside the default session, with its timer running.
  predicate Ticking(r: Row) { r.tx.NotInUse? && r.session != 1 && r.s3Started }

  lemma {:induction false} RestingTurn(c: Config, s: State, p: nat, ok: bool)
    requires c.Valid() && Shape(c, s) && p < |c.rows| && s.rows[p].tx.NotInUse?
    ensures var a, r := s.rows[p], MainRow(c, s, p, ok).s.rows[p];
            && r.tx.NotInUse?
            && (a.session == 1 ==> r.session == 1 && r.started == a.started)
            && (Ticking(a) && a.s3Count > 1 ==>
                  r.session == a.session && r.s3Started && r.s3Count == a.s3Count - 1 && r.started == a.started)
            && (Ticking(a) && a.s3Count <= 1 ==> r.session == 1 && (c.rows[p].obd ==> !r.started)
                                                  && (!c.rows[p].obd ==> r.started == a.started))
  {
    hide RowShape, MainWaiting, MainTransmit, MainPreempting;
  }

  // Another row's turn does not touch the session, nor its timer.
  lemma {:induction false} SameOrClosedSession(a: Row, b: Row)
    requires SameOrClosed(a, b)
    ensures b.session == a.session && b.s3Started == a.s3Started && b.s3Count == a.s3Count
    ensures a.tx.NotInUse? ==> b.tx.NotInUse?
  {
  }

  lemma {:induction false} RestingMain(c: Config, s: State, oks: seq<bool>, p: nat)
    requires c.Valid() && Inv(c, s) && |oks| == |c.rows| && p < |c.rows| && s.rows[p].tx.NotInUse?
    ensures var a, r := s.rows[p], MainRows(c, s, oks, |oks|).s.rows[p];
            && r.tx.NotInUse?
            && (a.session == 1 ==> r.session == 1)
            && (Ticking(a) && a.s3Count > 1 ==> r.session == a.session && r.s3Started && r.s3Count == a.s3Count - 1)
            && (Ticking(a) && a.s3Count <= 1 ==> r.session == 1)
  {
    hide MainRow, MainRows, RowOk, RowShape, SameOrClosed;
    MainRowsByRow(c, s, oks, p);
    var before, r := MainRows(c, s, oks, p).s, MainRows(c, s, oks, |oks|).s;
    SameOrClosedSession(s.rows[p], before.rows[p]);
    RestingTurn(c, before, p, oks[p]);
    SameOrClosedSession(MainRow(c, before, p, oks[p]).s.rows[p], r.rows[p]);
  }

  // Left alone, it falls back to the default session on exactly the max(1, count)-th main-function
  // call, and not before.
  lemma {:induction false} SessionEndsExactly(c: Config, s: State, es: seq<Event>, p: nat)
    requires c.Valid() && Inv(c, s) && EventsOk(c, es) && OnlyMains(es) && p < |c.rows| && Ticking(s.rows[p])
    ensures Run(c, s, es).rows[p].session == (if |es| < AtLeastOne(s.rows[p].s3Count) then s.rows[p].session else 1)
    decreases es
  {
    hide MainRows, RowOk, RowShape;
    if es != [] {
      var t := Step(c, s, es[0]).s;
      RestingMain(c, s, es[0].oks, p);
      StepKeepsInv(c, s, es[0]);
      if s.rows[p].s3Count > 1 {
        SessionEndsExactly(c, t, es[1..], p);
      } else {
        DefaultStays(c, t, es[1..], p);
      }
    }
  }

  lemma {:induction false} DefaultStays(c: Config, s: State, es: seq<Event>, p: nat)
    requires c.Valid() && Inv(c, s) && EventsOk(c, es) && OnlyMains(es) && p < |c.rows|
    requires s.rows[p].tx.NotInUse? && s.rows[p].session == 1
    ensures Run(c, s, es).rows[p].session == 1
    decreases es
  {
    hide MainRows, RowOk, RowShape;
    if es != [] {
      RestingMain(c, s, es[0].oks, p);
      StepKeepsInv(c, s, es[0]);
      DefaultStays(c, Step(c, s, es[0]).s, es[1..], p);
    }
  }

  // ---------- Negative responses ----------

  // What a negative response of a row says: 0x7F, the service, and the code.
  predicate Says(r: Row, code: byte) {
    r.localTx.TransmitSignaled? && |r.rxBuf| >= 1 && r.localTxBuf == [0x7F, r.rxBuf[0], code]
  }

  // When the wait for the DSD is over, 0x78 asks for more time, or 0x10 gives the request up.
  lemma {:induction false} WaitSays(c: Config, s: State, p: nat, ok: bool)
    requires c.Valid() && Inv(c, s) && p < |c.rows| && s.rows[p].tx.ProvidedToDsd? && s.rows[p].stateTimeout <= 1
    ensures var row, r, sent := s.rows[p], MainWaiting(c, s, p, ok).s.rows[p], MainWaiting(c, s, p, ok).sent;
            && (!row.localTx.NotInUse? ==> sent == None && r.localTx == row.localTx && r.localTxBuf == row.localTxBuf)
            && if c.forcePending && row.pendingCount > 0 then
                 && (row.localTx.NotInUse? ==> Says(r, 0x78) && sent == Some(0x78))
                 && r.tx.ProvidedToDsd? && r.rx.ProvidedToDsd? && r.pendingCount == row.pendingCount - 1
               else
                 && (row.localTx.NotInUse? ==> Says(r, 0x10) && sent == Some(0x10))
                 && r.tx.NotInUse? && r.rx.NotInUse? && !r.rxBusy
  {
    assert RowOk(c, s.active, p, s.rows[p]);
    hide SendResponse, RowOk, P2StarCycles;
    WaitRestarted(c, s, p);
    var again := Set(c, s, p, s.rows[p].(stateTimeout := P2StarCycles(c, p, s.rows[p].session, 0)));
    var nrc := if c.forcePending && s.rows[p].pendingCount != 0 then RESPONSE_PENDING else GENERAL_REJECT;
    SendResponseKeepsInv(c, again, p, nrc, ok);
  }

  // The DSD may ask for 0x78 itself; the wait then starts over with P2* and one period.
  lemma {:induction false} DsdAsksForTime(c: Config, s: State, pdu: nat, ok: bool)
    requires c.Valid() && Inv(c, s) && pdu < |c.rxRow| && s.rows[c.rxRow[pdu]].tx.ProvidedToDsd?
    ensures var p := c.rxRow[pdu];
            var row, r := s.rows[p], DsdSendResponsePending(c, s, pdu, ok).s.rows[p];
            var time := c.p2Star(row.session) + c.period;
            && (row.localTx.NotInUse? ==> Says(r, 0x78)) && r.tx.ProvidedToDsd?
            && r.stateTimeout == (if time > c.rows[p].p2StarAdjust then (time - c.rows[p].p2StarAdjust) / c.period
                                  else 0)
            && r.pendingCount == (if row.pendingCount > 0 then row.pendingCount - 1 else 0)
  {
    hide SendResponse, RowOk;
    SendResponseKeepsInv(c, s, c.rxRow[pdu], RESPONSE_PENDING, ok);
  }

  // A preempting row says 0x21, once, and can receive again as soon as PduR takes it.
  lemma {:induction false} PreemptingSays(c: Config, s: State, p: nat, ok: bool)
    requires c.Valid() && Inv(c, s) && Waits(s, p) && s.preempting
    ensures MainPreempting(c, s, p, ok).sent
         == if s.busySent || !s.rows[p].localTx.NotInUse? then None else Some(0x21)
    ensures var t := TellBusy(c, s, p, ok);
            if s.busySent || !s.rows[p].localTx.NotInUse? then t == s
            else Says(t.rows[p], 0x21) && t.busySent == ok
                 && (if ok then t.rows[p].rx.NotInUse? && !t.rows[p].rxBusy else t.rows[p].rx == s.rows[p].rx)
  {
    assert RowShape(c, p, s.rows[p]);
    hide SendResponse, RowOk;
    SendResponseKeepsInv(c, s, p, BUSY_REPEAT_REQUEST, ok);
  }

  // PduR has been given the first bytes of the negative response, and no more.
  predicate LocalGiven(row: Row, given: seq<byte>) {
    && Transmitting(row.localTx) && |row.localTxBuf| == 3 && |given| <= 3 && row.localTxBuf[..|given|] == given
    && (if row.localTx.TransmitSignaled? then given == [] else row.localTxCount == |given|)
  }

  // It gets the bytes in order, each once, and is told how many are left; it cannot ask for more.
  lemma {:induction false} NegativeResponseIsCopied(c: Config, s: State, pdu: nat, n: nat, given: seq<byte>)
    requires c.Valid() && Inv(c, s) && pdu < |c.txRow|
    requires LocalGiven(s.rows[c.txRow[pdu]], given) && !Transmitting(s.rows[c.txRow[pdu]].tx)
    ensures var p, r := c.txRow[pdu], CopyTxData(c, s, pdu, n);
            && OthersSame(s, r.s, p) && r.s.rows[p].localTxBuf == s.rows[p].localTxBuf
            && if |given| + n <= 3 then
                 && r.reply.Chunk? && !r.reply.external && |r.reply.data| == n && r.reply.left == 3 - |given| - n
                 && LocalGiven(r.s.rows[p], given + r.reply.data)
               else r.reply == Refused && LocalGiven(r.s.rows[p], given)
  {
    var p := c.txRow[pdu];
    assert RowShape(c, p, s.rows[p]);
    hide RowShape, RowOk, NextOfLocal, LocalGiven;
    NextBytes(s.rows[p], n, given);
  }

  lemma {:induction false} NextBytes(row: Row, n: nat, given: seq<byte>)
    requires LocalGiven(row, given) && row.localTxCount <= 3
    ensures var t := NextOfLocal(row, n);
            && t.0.localTxBuf == row.localTxBuf
            && if |given| + n <= 3 then
                 && t.1.Chunk? && !t.1.external && |t.1.data| == n && t.1.left == 3 - |given| - n
                 && LocalGiven(t.0, given + t.1.data)
               else t.1 == Refused && LocalGiven(t.0, given)
  {
    var buf, at := row.localTxBuf, |given|;
    if at + n <= 3 { assert buf[..at + n] == buf[..at] + buf[at..at + n]; }
  }

  // The DSD's answer.
  lemma {:induction false} DsdAnswers(c: Config, s: State, pdu: nat, suppressed: bool, response: seq<byte>)
    requires c.Valid() && Inv(c, s) && pdu < |c.rxRow| && s.rows[c.rxRow[pdu]].tx.ProvidedToDsd?
    ensures var p := c.rxRow[pdu];
            var r := DsdProcessingDone(c, s, pdu, suppressed, response).s.rows[p];
            if suppressed then r.tx.NotInUse? && r.rx.NotInUse? && !r.rxBusy
            else r.tx.ResponseReady? && r.response == response && r.rx.ProvidedToDsd?
  {
    assert RowOk(c, s.active, c.rxRow[pdu], s.rows[c.rxRow[pdu]]);
    hide RowOk, RowShape;
  }
}
