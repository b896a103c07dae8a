/** The DSL request/response protocol: for each protocol row, who owns its receive and transmit
    buffers, the response-pending and session timers, and preemption of one row by another.
    One receive and one transmit buffer per row; no type-2 (periodic) transmission. */
module Dsl {
  import opened Prelude

  // ---------- Configuration ----------

  const DEFAULT_SESSION := 1
  const OBD_SESSION := 5
  const LOCAL_BUFFER_LENGTH := 8
  const RESPONSE_PENDING: byte := 0x78
  const BUSY_REPEAT_REQUEST: byte := 0x21
  const GENERAL_REJECT: byte := 0x10

  // Times are in milliseconds; a smaller number is a higher priority.
  datatype RowConfig = RowConfig(obd: bool, priority: nat, rxSize: nat, s3: nat, p2Adjust: nat, p2StarAdjust: nat,
                                 preemptTimeout: nat)

  // rxRow and txRow: the row each receive and each transmit PDU belongs to.
  datatype Config = Config(rows: seq<RowConfig>, rxRow: seq<nat>, txRow: seq<nat>, period: nat,
                           p2: nat -> nat, p2Star: nat -> nat, forcePending: bool, maxPending: nat) {
    ghost predicate Valid() {
      && period >= 1 && |rxRow| >= 1
      && (forall i | 0 <= i < |rxRow| :: rxRow[i] < |rows|)
      && (forall i | 0 <= i < |txRow| :: txRow[i] < |rows|)
      && (forall p | 0 <= p < |rows| :: rows[p].rxSize >= 2)
      && forall p, q | 0 <= p < |rows| && 0 <= q < |rows| && rows[p].obd && rows[q].obd :: p == q
    }

    function Cycles(ms: nat): nat
      requires period >= 1
    {
      ms / period
    }
  }

  function AdjustP2Timing(max: nat, adjust: nat): nat { if max > adjust then max - adjust else 0 }

  function Decrement(timer: nat): nat { if timer > 0 then timer - 1 else 0 }

  // ---------- State ----------

  datatype Use = NotInUse | ProvidedToDsd | ResponseReady | TransmitSignaled | ProvidedToPdur | PreemptNrc

  // rx*, tx*: the external buffers; local*: the extra ones for tester present and negative
  // responses. rxBusy is the BUFFER_BUSY flag of the external receive buffer.
  datatype Row = Row(
    rx: Use, rxBusy: bool, rxPdu: Option<nat>, rxBuf: seq<byte>, rxCount: nat, rxLen: nat,
    localRx: Use, localRxPdu: Option<nat>, localRxBuf: seq<byte>, localRxCount: nat, localRxLen: nat,
    tx: Use, response: seq<byte>, txCount: nat,
    localTx: Use, localTxBuf: seq<byte>, localTxCount: nat,
    started: bool, session: nat, s3Started: bool, s3Count: nat,
    stateTimeout: nat, preemptTimeout: nat, pendingCount: nat, diagReq: nat)

  // preempting: PreemptionNotProcessingDone.
  datatype State = State(rows: seq<Row>, active: Option<nat>, preempting: bool, busySent: bool)

  predicate RowShape(c: Config, p: nat, r: Row)
    requires p < |c.rows|
  {
    && |r.rxBuf| == c.rows[p].rxSize && r.rxCount <= |r.rxBuf|
    && |r.localRxBuf| == LOCAL_BUFFER_LENGTH && r.localRxCount <= LOCAL_BUFFER_LENGTH
    && (r.tx.ProvidedToPdur? ==> r.txCount <= |r.response|)
    && |r.localTxBuf| == 3 && r.localTxCount <= 3
    && r.diagReq < |c.rxRow|
  }

  ghost predicate Shape(c: Config, s: State) {
    && |s.rows| == |c.rows|
    && (s.active.Some? ==> s.active.value < |c.rows|)
    && forall p | 0 <= p < |c.rows| :: RowShape(c, p, s.rows[p])
  }

  function Set(c: Config, s: State, p: nat, r: Row): (t: State)
    requires Shape(c, s) && p < |c.rows| && RowShape(c, p, r)
    ensures Shape(c, t) && t.rows[p] == r
  {
    s.(rows := s.rows[p := r])
  }

  // ---------- Pieces shared by the callbacks ----------

  function Release(r: Row): Row {
    r.(tx := NotInUse, rx := NotInUse, rxBusy := false)
  }

  function StartS3(c: Config, p: nat, r: Row): Row
    requires c.Valid() && p < |c.rows|
  {
    r.(s3Count := c.Cycles(c.rows[p].s3), s3Started := true)
  }

  // DslResetSessionTimeoutTimer: the timer of the active row.
  function ResetSessionTimer(c: Config, s: State): (t: State)
    requires c.Valid() && Shape(c, s)
    ensures Shape(c, t)
  {
    if s.active.None? then s else Set(c, s, s.active.value, StartS3(c, s.active.value, s.rows[s.active.value]))
  }

  // changeDiagnosticSession, and the session an OBD row is put in right after.
  function FreshSession(obd: bool, r: Row): Row {
    r.(session := if obd then OBD_SESSION else DEFAULT_SESSION)
  }

  predicate IsTesterPresent(buf: seq<byte>)
    requires |buf| >= 2
  {
    buf[0] == 0x3E && buf[1] >= 0x80
  }

  // sendResponseWithStatus, on the row the request came in on; ok: PduR takes it. Nothing is
  // sent while another negative response is on its way.
  datatype SendResult = SendResult(s: State, sent: bool, accepted: bool)

  function SendResponse(c: Config, s: State, p: nat, nrc: byte, ok: bool): (r: SendResult)
    requires c.Valid() && Shape(c, s) && p < |c.rows|
    ensures Shape(c, r.s)
  {
    var q := c.rxRow[s.rows[p].diagReq];
    if s.rows[q].localTx.NotInUse? then
      var row := s.rows[q].(localTx := TransmitSignaled, localTxBuf := [0x7F, s.rows[p].rxBuf[0], nrc]);
      SendResult(Set(c, s, q, row), true, ok)
    else SendResult(s, false, false)
  }

  // ---------- Reception ----------

  datatype Reply =
    | Granted(external: bool, size: nat)            // BUFREQ_OK from StartOfReception
    | Busy                                          // BUFREQ_BUSY
    | Overflow                                      // BUFREQ_OVFL
    | Refused                                       // BUFREQ_NOT_OK
    | Stored(external: bool, room: nat)             // received bytes copied
    | Indicated(pdu: nat, request: seq<byte>)       // DsdDslDataIndication
    | Chunk(external: bool, data: seq<byte>, left: nat)  // bytes handed to PduR
    | Confirmed(external: bool)                     // a transmission ended
    | Sent(nrcs: seq<(nat, byte)>)                  // negative responses started by the main function
    | Quiet

  datatype Outcome = Outcome(s: State, reply: Reply)

  function StartOfReception(c: Config, s: State, pdu: nat, len: nat, internal: bool): (r: Outcome)
    requires c.Valid() && Shape(c, s)
    ensures Shape(c, r.s)
  {
    if pdu >= |c.rxRow| then Outcome(s, Refused)
    else
      var p := c.rxRow[pdu];
      var row := s.rows[p];
      if c.rows[p].rxSize < len then Outcome(s, Overflow)
      else if row.rx.NotInUse? && !row.rxBusy then
        Outcome(Set(c, s, p, row.(rx := ProvidedToPdur, rxBusy := true, rxPdu := Some(pdu), rxCount := 0, rxLen := len,
                               s3Started := false)), Granted(true, c.rows[p].rxSize))
      else if row.localRx.NotInUse? && !internal then
        if len <= LOCAL_BUFFER_LENGTH then
          Outcome(Set(c, s, p, row.(localRx := ProvidedToPdur, localRxPdu := Some(pdu), localRxCount := 0,
                                 localRxLen := len, s3Started := false)), Granted(false, LOCAL_BUFFER_LENGTH))
        else Outcome(s, Refused)
      else Outcome(s, Busy)
  }

  predicate ReceivesExternal(row: Row, pdu: nat) { row.rx.ProvidedToPdur? && row.rxPdu == Some(pdu) }

  predicate ReceivesLocal(row: Row, pdu: nat) { row.localRx.ProvidedToPdur? && row.localRxPdu == Some(pdu) }

  function CopyRxData(c: Config, s: State, pdu: nat, chunk: seq<byte>): (r: Outcome)
    requires c.Valid() && Shape(c, s)
    ensures Shape(c, r.s)
  {
    if pdu >= |c.rxRow| then Outcome(s, Refused)
    else
      var p := c.rxRow[pdu];
      var row := s.rows[p];
      if ReceivesExternal(row, pdu) then
        if row.rxCount + |chunk| <= |row.rxBuf| then
          Outcome(Set(c, s, p, row.(rxBuf := Write(row.rxBuf, row.rxCount, chunk), rxCount := row.rxCount + |chunk|)),
                  Stored(true, |row.rxBuf| - row.rxCount - |chunk|))
        else Outcome(s, Refused)
      else if ReceivesLocal(row, pdu) then
        if row.localRxCount + |chunk| <= LOCAL_BUFFER_LENGTH then
          Outcome(Set(c, s, p, row.(localRxBuf := Write(row.localRxBuf, row.localRxCount, chunk),
                                 localRxCount := row.localRxCount + |chunk|)),
                  Stored(false, LOCAL_BUFFER_LENGTH - row.localRxCount - |chunk|))
        else Outcome(s, Refused)
      else Outcome(s, Refused)
  }

  function WaitsToPreempt(c: Config, pdu: nat, timeout: nat, r: Row): Row {
    r.(preemptTimeout := timeout, tx := PreemptNrc, pendingCount := c.maxPending, diagReq := pdu)
  }

  // The receive buffer is free again.
  function Turned(r: Row): Row { r.(rx := NotInUse, rxBusy := false) }

  // Which protocol runs: start, take over, preempt, or turn the request away.
  function Arbitrate(c: Config, s: State, p: nat, pdu: nat, startOk: bool, stopOk: bool): (r: State)
    requires c.Valid() && Shape(c, s) && p < |c.rows| && pdu < |c.rxRow|
    ensures Shape(c, r)
  {
    var row := s.rows[p];
    if row.started then s
    else if s.active.None? then
      if startOk then Set(c, s, p, FreshSession(c.rows[p].obd, row).(started := true)).(active := Some(p)) else s
    else
      var a := s.active.value;
      if c.rows[p].priority < c.rows[a].priority || s.rows[a].session == DEFAULT_SESSION then
        if !stopOk then s
        else if s.rows[a].tx.NotInUse? then
          if startOk then
            var closed := Set(c, s, a, s.rows[a].(started := false));
            Set(c, closed, p, FreshSession(c.rows[p].obd, closed.rows[p]).(started := true)).(active := Some(p))
          else s
        else
          var timeout := if row.tx.PreemptNrc? then row.preemptTimeout else c.Cycles(c.rows[p].preemptTimeout);
          Set(c, s, p, WaitsToPreempt(c, pdu, timeout, row)).(preempting := true, busySent := false)
      else Set(c, s, p, Turned(row))
  }

  // The request is handed to the DSD together with the transmit buffer.
  function HandOver(c: Config, s: State, p: nat, pdu: nat): (r: Outcome)
    requires c.Valid() && Shape(c, s) && p < |c.rows| && pdu < |c.rxRow|
    requires s.rows[p].rxLen == 0 || s.rows[p].rxLen == s.rows[p].rxCount
    ensures Shape(c, r.s)
  {
    var row := s.rows[p];
    var len := if row.rxLen == 0 then row.rxCount else row.rxLen;
    Outcome(Set(c, s, p, row.(rx := ProvidedToDsd, rxLen := len, tx := ProvidedToDsd, pendingCount := c.maxPending,
                           stateTimeout := c.Cycles(AdjustP2Timing(c.p2(row.session), c.rows[p].p2Adjust)),
                           diagReq := pdu)),
            Indicated(pdu, row.rxBuf[..len]))
  }

  // startOk, stopOk: the answers of StartProtocol and StopProtocol, should they be called.
  function RxIndication(c: Config, s: State, pdu: nat, ok: bool, startOk: bool, stopOk: bool): (r: Outcome)
    requires c.Valid() && Shape(c, s)
    ensures Shape(c, r.s)
  {
    if pdu >= |c.rxRow| then Outcome(s, Quiet)
    else
      var p := c.rxRow[pdu];
      if ReceivesExternal(s.rows[p], pdu) then RxExternal(c, s, p, pdu, ok, startOk, stopOk)
      else if ReceivesLocal(s.rows[p], pdu) then Outcome(RxLocal(c, s, p, ok), Quiet)
      else Outcome(s, Quiet)
  }

  function RxExternal(c: Config, s: State, p: nat, pdu: nat, ok: bool, startOk: bool, stopOk: bool): (r: Outcome)
    requires c.Valid() && Shape(c, s) && p < |c.rows| && pdu < |c.rxRow|
    ensures Shape(c, r.s)
  {
    var row := s.rows[p];
    if !ok || (row.rxLen != 0 && row.rxLen != row.rxCount) then
      var timed := ResetSessionTimer(c, s);
      Outcome(Set(c, timed, p, timed.rows[p].(rx := NotInUse, rxBusy := false, rxPdu := None)), Quiet)
    else if IsTesterPresent(row.rxBuf) then
      Outcome(Set(c, s, p, StartS3(c, p, row).(rx := NotInUse, rxBusy := false, rxPdu := None)), Quiet)
    else
      var s' := Arbitrate(c, s, p, pdu, startOk, stopOk);
      if s'.rows[p].started then HandOver(c, s', p, pdu) else Outcome(s', Quiet)
  }

  function RxLocal(c: Config, s: State, p: nat, ok: bool): (r: State)
    requires c.Valid() && Shape(c, s) && p < |c.rows|
    ensures Shape(c, r)
  {
    var row := s.rows[p];
    var timed :=
      if !ok || (row.localRxLen != 0 && row.localRxLen != row.localRxCount) then ResetSessionTimer(c, s)
      else if IsTesterPresent(row.localRxBuf) then Set(c, s, p, StartS3(c, p, row))
      else s;
    Set(c, timed, p, timed.rows[p].(localRx := NotInUse, localRxPdu := None))
  }

  // ---------- The DSD's answers ----------

  function DsdProcessingDone(c: Config, s: State, pdu: nat, suppressed: bool, response: seq<byte>): (r: Outcome)
    requires c.Valid() && Shape(c, s)
    ensures Shape(c, r.s)
  {
    if pdu >= |c.rxRow| || !s.rows[c.rxRow[pdu]].tx.ProvidedToDsd? then Outcome(s, Quiet)
    else
      var p := c.rxRow[pdu];
      if suppressed then Outcome(Set(c, s, p, Release(s.rows[p])), Quiet)
      else Outcome(Set(c, s, p, s.rows[p].(tx := ResponseReady, response := response)), Quiet)
  }

  function P2StarCycles(c: Config, p: nat, session: nat, extra: nat): nat
    requires c.Valid() && p < |c.rows|
  {
    c.Cycles(AdjustP2Timing(c.p2Star(session) + extra, c.rows[p].p2StarAdjust))
  }

  function DsdSendResponsePending(c: Config, s: State, pdu: nat, ok: bool): (r: Outcome)
    requires c.Valid() && Shape(c, s)
    ensures Shape(c, r.s)
  {
    if pdu >= |c.rxRow| || !s.rows[c.rxRow[pdu]].tx.ProvidedToDsd? then Outcome(s, Quiet)
    else
      var p := c.rxRow[pdu];
      var sent := SendResponse(c, s, p, RESPONSE_PENDING, ok).s;
      Outcome(Set(c, sent, p, sent.rows[p].(stateTimeout := P2StarCycles(c, p, s.rows[p].session, c.period),
                                         pendingCount := Decrement(s.rows[p].pendingCount))), Quiet)
  }

  // ---------- Transmission ----------

  // The next n bytes of the response, or of the negative response.
  function NextOfResponse(r: Row, n: nat): (t: (Row, Reply))
    requires Transmitting(r.tx) && (r.tx.ProvidedToPdur? ==> r.txCount <= |r.response|)
  {
    var at := if r.tx.TransmitSignaled? then 0 else r.txCount;
    if at + n <= |r.response| then
      (r.(tx := ProvidedToPdur, txCount := at + n), Chunk(true, r.response[at..at + n], |r.response| - at - n))
    else (r.(tx := ProvidedToPdur, txCount := at), Refused)
  }

  function NextOfLocal(r: Row, n: nat): (t: (Row, Reply))
    requires Transmitting(r.localTx) && |r.localTxBuf| == 3 && r.localTxCount <= 3
  {
    var at := if r.localTx.TransmitSignaled? then 0 else r.localTxCount;
    if at + n <= 3 then
      (r.(localTx := ProvidedToPdur, localTxCount := at + n), Chunk(false, r.localTxBuf[at..at + n], 3 - at - n))
    else (r.(localTx := ProvidedToPdur, localTxCount := at), Refused)
  }

  function CopyTxData(c: Config, s: State, pdu: nat, n: nat): (r: Outcome)
    requires c.Valid() && Shape(c, s)
    ensures Shape(c, r.s)
  {
    if pdu >= |c.txRow| then Outcome(s, Refused)
    else
      var p := c.txRow[pdu];
      var row := s.rows[p];
      if Transmitting(row.tx) then
        var t := NextOfResponse(row, n);
        Outcome(Set(c, s, p, t.0), t.1)
      else if Transmitting(row.localTx) then
        var t := NextOfLocal(row, n);
        Outcome(Set(c, s, p, t.0), t.1)
      else Outcome(s, Refused)
  }

  function TxConfirmation(c: Config, s: State, pdu: nat): (r: Outcome)
    requires c.Valid() && Shape(c, s)
    ensures Shape(c, r.s)
  {
    if pdu >= |c.txRow| then Outcome(s, Quiet)
    else
      var p := c.txRow[pdu];
      var row := s.rows[p];
      var q := c.rxRow[row.diagReq];
      if row.tx.TransmitSignaled? || row.tx.ProvidedToPdur? then
        Outcome(Set(c, s, q, StartS3(c, q, Release(s.rows[q]))), Confirmed(true))
      else if row.localTx.TransmitSignaled? || row.localTx.ProvidedToPdur? then
        Outcome(Set(c, s, p, row.(localTx := NotInUse)), Confirmed(false))
      else Outcome(s, Quiet)
  }

  function SetSession(c: Config, s: State, session: nat): (r: Outcome)
    requires c.Valid() && Shape(c, s)
    ensures Shape(c, r.s)
  {
    if s.active.None? then Outcome(s, Quiet)
    else
      var a := s.active.value;
      Outcome(Set(c, s, a, StartS3(c, a, s.rows[a].(session := session))), Quiet)
  }

  // ---------- The main function ----------

  function S3Left(r: Row): nat { if r.s3Started then Decrement(r.s3Count) else r.s3Count }

  // The row after a tick of its session timer; the end of its session closes an OBD row.
  function S3Ticked(obd: bool, r: Row): Row {
    r.(s3Count := S3Left(r),
       session := if S3Left(r) == 0 then DEFAULT_SESSION else r.session,
       started := r.started && (S3Left(r) > 0 || !obd))
  }

  // The session timer of one row.
  function MainS3(c: Config, s: State, p: nat): (r: State)
    requires c.Valid() && Shape(c, s) && p < |c.rows|
    ensures Shape(c, r) && r.rows[p].tx == s.rows[p].tx
  {
    var row := s.rows[p];
    if row.session == DEFAULT_SESSION then s
    else
      var t := Set(c, s, p, S3Ticked(c.rows[p].obd, row));
      if S3Left(row) == 0 && c.rows[p].obd && s.active.Some? && c.rows[s.active.value].obd
      then t.(active := None) else t
  }

  datatype MainResult = MainResult(s: State, sent: Option<byte>)

  // The response-pending timer of a request that is at the DSD.
  function MainWaiting(c: Config, s: State, p: nat, ok: bool): (r: MainResult)
    requires c.Valid() && Shape(c, s) && p < |c.rows|
    ensures Shape(c, r.s)
  {
    var row := s.rows[p];
    var count := Decrement(row.stateTimeout);
    if count > 0 then MainResult(Set(c, s, p, row.(stateTimeout := count)), None)
    else
      var again := Set(c, s, p, row.(stateTimeout := P2StarCycles(c, p, row.session, 0)));
      if c.forcePending && row.pendingCount != 0 then
        var r := SendResponse(c, again, p, RESPONSE_PENDING, ok);
        MainResult(Set(c, r.s, p, r.s.rows[p].(pendingCount := row.pendingCount - 1)),
                   if r.sent then Some(RESPONSE_PENDING) else None)
      else
        var r := SendResponse(c, again, p, GENERAL_REJECT, ok);
        MainResult(Set(c, r.s, p, Release(r.s.rows[p])), if r.sent then Some(GENERAL_REJECT) else None)
  }

  // A finished response goes out, unless a negative response is still on its way.
  function MainTransmit(c: Config, s: State, p: nat, ok: bool): (r: MainResult)
    requires c.Valid() && Shape(c, s) && p < |c.rows|
    ensures Shape(c, r.s)
  {
    if !s.rows[p].localTx.NotInUse? then MainResult(s, None)
    else
      var q := c.rxRow[s.rows[p].diagReq];
      if ok then MainResult(Set(c, s, q, s.rows[q].(tx := TransmitSignaled)), None)
      else MainResult(Set(c, s, q, Release(StartS3(c, q, s.rows[q].(tx := TransmitSignaled)))), None)
  }

  // A row that waits for the active protocol to give way.
  function MainPreempting(c: Config, s: State, p: nat, ok: bool): (r: MainResult)
    requires c.Valid() && Shape(c, s) && p < |c.rows|
    ensures Shape(c, r.s)
  {
    if !s.preempting then MainResult(s, None)
    else
      var told := TellBusy(c, s, p, ok);
      var timed := Set(c, told, p, told.rows[p].(preemptTimeout := Decrement(told.rows[p].preemptTimeout)));
      var sent := !s.busySent && SendResponse(c, s, p, BUSY_REPEAT_REQUEST, ok).sent;
      MainResult(GiveWay(c, timed, p), if sent then Some(BUSY_REPEAT_REQUEST) else None)
  }

  // NRC 0x21, once; then the row can receive again.
  function TellBusy(c: Config, s: State, p: nat, ok: bool): (r: State)
    requires c.Valid() && Shape(c, s) && p < |c.rows|
    ensures Shape(c, r) && r.active == s.active
  {
    if s.busySent then s
    else
      var busy := SendResponse(c, s, p, BUSY_REPEAT_REQUEST, ok);
      if !busy.accepted then busy.s
      else Set(c, busy.s, p, busy.s.rows[p].(rx := NotInUse, rxBusy := false)).(busySent := true)
  }

  // A protocol that gives way to a preempting one.
  function Closed(r: Row): Row {
    var stopped := r.(started := false);
    if r.tx.NotInUse? then stopped else Release(stopped)
  }

  // The preempted protocol is closed once it is done or the preemption timer has run out.
  function GiveWay(c: Config, s: State, p: nat): (r: State)
    requires c.Valid() && Shape(c, s) && p < |c.rows|
    ensures Shape(c, r)
  {
    if s.active.None? then s
    else
      var a := s.active.value;
      if s.rows[a].tx.NotInUse? || s.rows[p].preemptTimeout == 0 then
        var closed := Set(c, s, a, Closed(s.rows[a])).(active := None, preempting := false);
        Set(c, closed, p, Release(closed.rows[p]))
      else s
  }

  // ok: whether PduR accepts a transmission started for this row.
  function MainRow(c: Config, s: State, p: nat, ok: bool): (r: MainResult)
    requires c.Valid() && Shape(c, s) && p < |c.rows|
    ensures Shape(c, r.s)
  {
    var s' := MainS3(c, s, p);
    match s'.rows[p].tx
    case ProvidedToDsd => MainWaiting(c, s', p, ok)
    case ResponseReady => MainTransmit(c, s', p, ok)
    case PreemptNrc => MainPreempting(c, s', p, ok)
    case NotInUse | TransmitSignaled | ProvidedToPdur => MainResult(s', None)
  }

  // The first n rows, in table order.
  function MainRows(c: Config, s: State, oks: seq<bool>, n: nat): (r: Outcome)
    requires c.Valid() && Shape(c, s) && n <= |c.rows| == |oks|
    ensures Shape(c, r.s) && r.reply.Sent?
  {
    if n == 0 then Outcome(s, Sent([]))
    else
      var before := MainRows(c, s, oks, n - 1);
      var r := MainRow(c, before.s, n - 1, oks[n - 1]);
      Outcome(r.s, if r.sent.None? then before.reply else Sent(before.reply.nrcs + [(n - 1, r.sent.value)]))
  }

  // ---------- Runs ----------

  datatype Event =
    | StartRx(rxPdu: nat, len: nat, internal: bool)
    | CopyRx(rxPdu: nat, chunk: seq<byte>)
    | EndRx(rxPdu: nat, ok: bool, startOk: bool, stopOk: bool)
    | DsdDone(rxPdu: nat, suppressed: bool, response: seq<byte>)
    | DsdPending(rxPdu: nat, taken: bool)
    | CopyTx(txPdu: nat, n: nat)
    | EndTx(txPdu: nat)
    | ChangeSession(session: nat)
    | Main(oks: seq<bool>)

  predicate EventOk(c: Config, e: Event) { e.Main? ==> |e.oks| == |c.rows| }

  predicate OnRxRow(c: Config, pdu: nat, p: nat) { pdu < |c.rxRow| && c.rxRow[pdu] == p }

  predicate OnTxRow(c: Config, pdu: nat, p: nat) { pdu < |c.txRow| && c.txRow[pdu] == p }

  function Step(c: Config, s: State, e: Event): (r: Outcome)
    requires c.Valid() && Shape(c, s) && EventOk(c, e)
    ensures Shape(c, r.s)
  {
    match e
    case StartRx(pdu, len, internal) => StartOfReception(c, s, pdu, len, internal)
    case CopyRx(pdu, chunk) => CopyRxData(c, s, pdu, chunk)
    case EndRx(pdu, ok, startOk, stopOk) => RxIndication(c, s, pdu, ok, startOk, stopOk)
    case DsdDone(pdu, suppressed, response) => DsdProcessingDone(c, s, pdu, suppressed, response)
    case DsdPending(pdu, taken) => DsdSendResponsePending(c, s, pdu, taken)
    case CopyTx(pdu, n) => CopyTxData(c, s, pdu, n)
    case EndTx(pdu) => TxConfirmation(c, s, pdu)
    case ChangeSession(session) => SetSession(c, s, session)
    case Main(oks) => MainRows(c, s, oks, |oks|)
  }

  predicate EventsOk(c: Config, es: seq<Event>) { forall i | 0 <= i < |es| :: EventOk(c, es[i]) }

  function Run(c: Config, s: State, es: seq<Event>): (r: State)
    requires c.Valid() && Shape(c, s) && EventsOk(c, es)
    ensures Shape(c, r)
    decreases es
  {
    if es == [] then s else Run(c, Step(c, s, es[0]).s, es[1..])
  }

  function InitRow(c: Config, p: nat): Row
    requires p < |c.rows|
  {
    Row(NotInUse, false, None, Zeros(c.rows[p].rxSize), 0, 0, NotInUse, None, Zeros(LOCAL_BUFFER_LENGTH), 0, 0,
        NotInUse, [], 0, NotInUse, Zeros(3), 0, false, DEFAULT_SESSION, false, 0, 0, 0, 0, 0)
  }

  function Zeros(n: nat): (z: seq<byte>)
    ensures |z| == n
  {
    seq(n, _ => 0 as byte)
  }

  function Init(c: Config): (s: State)
    requires c.Valid()
    ensures Shape(c, s)
  {
    State(seq(|c.rows|, p requires 0 <= p < |c.rows| => InitRow(c, p)), None, false, false)
  }

  // ---------- What every reachable state satisfies ----------

  // A request of this row is at the DSD or its response is on the way.
  predicate InFlight(r: Row) {
    r.tx.ProvidedToDsd? || r.tx.ResponseReady? || r.tx.TransmitSignaled? || r.tx.ProvidedToPdur?
  }

  predicate Transmitting(u: Use) { u.TransmitSignaled? || u.ProvidedToPdur? }

  // Receive PDUs lead to an OBD row.
  ghost predicate ReachesObd(c: Config)
    requires c.Valid()
  {
    exists i :: 0 <= i < |c.rxRow| && c.rows[c.rxRow[i]].obd
  }

  ghost predicate Reached(c: Config, p: nat) { exists i :: OnRxRow(c, i, p) }

  ghost predicate RowOk(c: Config, active: Option<nat>, p: nat, r: Row)
    requires c.Valid() && p < |c.rows| && RowShape(c, p, r)
  {
    && (r.started <==> active == Some(p))
    && (r.rx.NotInUse? || r.rx.ProvidedToPdur? || r.rx.ProvidedToDsd?)
    && (r.rxBusy <==> !r.rx.NotInUse?)
    && (r.rx.ProvidedToDsd? <==> InFlight(r))
    && (r.localTx.NotInUse? || Transmitting(r.localTx))
    && !(Transmitting(r.tx) && Transmitting(r.localTx))
    && (!r.tx.NotInUse? || !r.localTx.NotInUse? ==> c.rxRow[r.diagReq] == p)
    && (r.started ==> !r.tx.PreemptNrc?)
    && (r.started ==> Reached(c, p))
    && (!ReachesObd(c) && !r.started ==> !InFlight(r))
  }

  ghost predicate Inv(c: Config, s: State)
    requires c.Valid()
  {
    Shape(c, s) && forall p | 0 <= p < |c.rows| :: RowOk(c, s.active, p, s.rows[p])
  }

  lemma {:induction false} SetKeepsInv(c: Config, s: State, p: nat, r: Row)
    requires c.Valid() && Inv(c, s) && p < |c.rows| && RowShape(c, p, r) && RowOk(c, s.active, p, r)
    ensures Inv(c, Set(c, s, p, r))
  {
    hide RowOk, RowShape;
    var t := Set(c, s, p, r);
    forall q | 0 <= q < |c.rows| ensures RowOk(c, t.active, q, t.rows[q]) {
      assert t.rows[q] == if q == p then r else s.rows[q];
    }
  }

  // A reception changes nothing that the invariant speaks of but the receive status.
  lemma {:induction false} ReceivingRowOk(c: Config, active: Option<nat>, p: nat, r: Row, t: Row)
    requires c.Valid() && p < |c.rows| && RowShape(c, p, r) && RowShape(c, p, t) && RowOk(c, active, p, r)
    requires t.tx == r.tx && t.localTx == r.localTx && t.started == r.started && t.diagReq == r.diagReq
    requires (t.rx == r.rx && t.rxBusy == r.rxBusy) || (r.rx.NotInUse? && t.rx.ProvidedToPdur? && t.rxBusy)
    ensures RowOk(c, active, p, t)
  {
    hide ReachesObd, Reached, RowShape;
  }

  lemma {:induction false} StartOfReceptionKeepsInv(c: Config, s: State, pdu: nat, len: nat, internal: bool)
    requires c.Valid() && Inv(c, s)
    ensures Inv(c, StartOfReception(c, s, pdu, len, internal).s)
  {
    hide RowOk;
    if pdu < |c.rxRow| {
      var p := c.rxRow[pdu];
      var t := StartOfReception(c, s, pdu, len, internal).s;
      if t != s {
        ReceivingRowOk(c, s.active, p, s.rows[p], t.rows[p]);
        SetKeepsInv(c, s, p, t.rows[p]);
      }
    }
  }

  lemma {:induction false} CopyRxKeepsInv(c: Config, s: State, pdu: nat, chunk: seq<byte>)
    requires c.Valid() && Inv(c, s)
    ensures Inv(c, CopyRxData(c, s, pdu, chunk).s)
  {
    hide RowOk, Write;
    if pdu < |c.rxRow| {
      var p := c.rxRow[pdu];
      var t := CopyRxData(c, s, pdu, chunk).s;
      if t != s {
        ReceivingRowOk(c, s.active, p, s.rows[p], t.rows[p]);
        SetKeepsInv(c, s, p, t.rows[p]);
      }
    }
  }

  // A row that is not the active one does not care whether another is.
  lemma {:induction false} OtherActive(c: Config, a: Option<nat>, b: Option<nat>, q: nat, r: Row)
    requires c.Valid() && q < |c.rows| && RowShape(c, q, r) && RowOk(c, a, q, r) && a != Some(q) && b != Some(q)
    ensures RowOk(c, b, q, r)
  {
  }

  // The active row is closed.
  lemma {:induction false} CloseKeepsInv(c: Config, s: State, r: Row)
    requires c.Valid() && Inv(c, s) && s.active.Some?
    requires RowShape(c, s.active.value, r) && RowOk(c, None, s.active.value, r)
    ensures Inv(c, Set(c, s, s.active.value, r).(active := None))
  {
    hide RowOk, RowShape;
    var a := s.active.value;
    var t := Set(c, s, a, r).(active := None);
    forall q | 0 <= q < |c.rows| ensures RowOk(c, t.active, q, t.rows[q]) {
      if q != a { OtherActive(c, s.active, None, q, s.rows[q]); }
    }
  }

  lemma {:induction false} RxExternalKeepsInv(c: Config, s: State, p: nat, pdu: nat, ok: bool, startOk: bool,
                                              stopOk: bool)
    requires c.Valid() && Inv(c, s) && pdu < |c.rxRow| && p == c.rxRow[pdu] && ReceivesExternal(s.rows[p], pdu)
    ensures Inv(c, RxExternal(c, s, p, pdu, ok, startOk, stopOk).s)
  {
    var row := s.rows[p];
    assert RowOk(c, s.active, p, row);
    if !ok || (row.rxLen != 0 && row.rxLen != row.rxCount) {
      ResetSessionTimerKeepsInv(c, s);
      var timed := ResetSessionTimer(c, s);
      SetKeepsInv(c, timed, p, timed.rows[p].(rx := NotInUse, rxBusy := false, rxPdu := None));
    } else if IsTesterPresent(row.rxBuf) {
      SetKeepsInv(c, s, p, StartS3(c, p, row).(rx := NotInUse, rxBusy := false, rxPdu := None));
    } else {
      ArbitrateKeepsInv(c, s, p, pdu, startOk, stopOk);
      var s' := Arbitrate(c, s, p, pdu, startOk, stopOk);
      if s'.rows[p].started { HandOverKeepsInv(c, s', p, pdu); }
    }
  }

  lemma {:induction false} HandOverKeepsInv(c: Config, s: State, p: nat, pdu: nat)
    requires c.Valid() && Shape(c, s) && pdu < |c.rxRow| && p == c.rxRow[pdu]
    requires s.rows[p].rxLen == 0 || s.rows[p].rxLen == s.rows[p].rxCount
    requires s.rows[p].rxBusy && RowOk(c, s.active, p, s.rows[p].(tx := NotInUse)) && s.rows[p].started
    requires forall q | 0 <= q < |c.rows| && q != p :: RowOk(c, s.active, q, s.rows[q])
    ensures Inv(c, HandOver(c, s, p, pdu).s)
  {
    var t := HandOver(c, s, p, pdu).s;
    assert RowOk(c, t.active, p, t.rows[p]);
    hide RowOk;
    forall q | 0 <= q < |c.rows| ensures RowOk(c, t.active, q, t.rows[q]) {
      if q != p { assert t.rows[q] == s.rows[q]; }
    }
  }

  lemma {:induction false} ResetSessionTimerKeepsInv(c: Config, s: State)
    requires c.Valid() && Inv(c, s)
    ensures Inv(c, ResetSessionTimer(c, s))
    ensures forall q | 0 <= q < |c.rows| ::
              ResetSessionTimer(c, s).rows[q].(s3Count := 0, s3Started := false)
              == s.rows[q].(s3Count := 0, s3Started := false)
  {
    if s.active.Some? {
      var a := s.active.value;
      SetKeepsInv(c, s, a, StartS3(c, a, s.rows[a]));
    }
  }

  // A row that is started here may still carry the mark of an earlier preemption; the request
  // is handed over in the same call, which sets the transmit status.
  lemma {:induction false} ArbitrateKeepsInv(c: Config, s: State, p: nat, pdu: nat, startOk: bool, stopOk: bool)
    requires c.Valid() && Inv(c, s) && pdu < |c.rxRow| && p == c.rxRow[pdu] && ReceivesExternal(s.rows[p], pdu)
    ensures var t := Arbitrate(c, s, p, pdu, startOk, stopOk);
            && (t.rows[p].started ==> t.rows[p].rxBusy && RowOk(c, t.active, p, t.rows[p].(tx := NotInUse)))
            && (!t.rows[p].started ==> RowOk(c, t.active, p, t.rows[p]))
            && t.rows[p].rxLen == s.rows[p].rxLen && t.rows[p].rxCount == s.rows[p].rxCount
    ensures forall q | 0 <= q < |c.rows| && q != p ::
              var t := Arbitrate(c, s, p, pdu, startOk, stopOk); RowOk(c, t.active, q, t.rows[q])
  {
    ArbitrateKeepsOwn(c, s, p, pdu, startOk, stopOk);
    hide RowShape, RowOk;
    var t := Arbitrate(c, s, p, pdu, startOk, stopOk);
    forall q | 0 <= q < |c.rows| && q != p ensures RowOk(c, t.active, q, t.rows[q]) {
      ArbitrateKeepsOther(c, s, p, pdu, startOk, stopOk, q);
    }
  }

  // The three things that can happen to a row whose request has come in.
  lemma {:induction false} ArrivedRowOk(c: Config, active: Option<nat>, p: nat, pdu: nat, r: Row, timeout: nat,
                                        b: Option<nat>)
    requires c.Valid() && OnRxRow(c, pdu, p) && RowShape(c, p, r) && RowOk(c, active, p, r) && r.rx.ProvidedToPdur?
             && !r.started
    ensures RowOk(c, Some(p), p, FreshSession(c.rows[p].obd, r).(started := true, tx := NotInUse))
    ensures b != Some(p) ==>
              RowOk(c, b, p, WaitsToPreempt(c, pdu, timeout, r))
    ensures RowOk(c, active, p, Turned(r))
  {
    hide ReachesObd;
  }

  lemma {:induction false} ArbitrateOwnRow(c: Config, s: State, p: nat, pdu: nat, startOk: bool, stopOk: bool)
    requires c.Valid() && Shape(c, s) && pdu < |c.rxRow| && p < |c.rows|
    requires s.active == Some(p) ==> s.rows[p].started
    ensures var row, t := s.rows[p], Arbitrate(c, s, p, pdu, startOk, stopOk);
            || (t.rows[p] == row && t.active == s.active)
            || (!row.started && t.active == Some(p) && t.rows[p] == FreshSession(c.rows[p].obd, row).(started := true))
            || (!row.started && t.active == s.active
              && t.rows[p] == WaitsToPreempt(c, pdu, t.rows[p].preemptTimeout, row))
            || (!row.started && t.active == s.active && t.rows[p] == Turned(row))
  {
    hide RowShape;
  }

  lemma {:induction false} ArbitrateKeepsOwn(c: Config, s: State, p: nat, pdu: nat, startOk: bool, stopOk: bool)
    requires c.Valid() && Inv(c, s) && pdu < |c.rxRow| && p == c.rxRow[pdu] && ReceivesExternal(s.rows[p], pdu)
    ensures var t := Arbitrate(c, s, p, pdu, startOk, stopOk);
            && (t.rows[p].started ==> t.rows[p].rxBusy && RowOk(c, t.active, p, t.rows[p].(tx := NotInUse)))
            && (!t.rows[p].started ==> RowOk(c, t.active, p, t.rows[p]))
            && t.rows[p].rxLen == s.rows[p].rxLen && t.rows[p].rxCount == s.rows[p].rxCount
  {
    var row, t := s.rows[p], Arbitrate(c, s, p, pdu, startOk, stopOk);
    assert row.rxBusy && (row.started <==> s.active == Some(p)) && (row.started ==> row.tx.NotInUse?) by {
      assert RowOk(c, s.active, p, row);
    }
    assert row.started ==> row.(tx := NotInUse) == row;
    ArbitrateOwnRow(c, s, p, pdu, startOk, stopOk);
    hide RowShape, RowOk, Arbitrate;
    if !row.started { ArrivedRowOk(c, s.active, p, pdu, row, t.rows[p].preemptTimeout, s.active); }
  }

  lemma {:induction false} ArbitrateKeepsOther(c: Config, s: State, p: nat, pdu: nat, startOk: bool, stopOk: bool,
                                               q: nat)
    requires c.Valid() && Inv(c, s) && pdu < |c.rxRow| && p == c.rxRow[pdu] && q < |c.rows| && q != p
    ensures var t := Arbitrate(c, s, p, pdu, startOk, stopOk); RowOk(c, t.active, q, t.rows[q])
  {
    hide RowShape, ReachesObd, Reached;
    assert RowOk(c, s.active, q, s.rows[q]);
  }

  lemma {:induction false} StartS3KeepsInv(c: Config, s: State, p: nat)
    requires c.Valid() && Inv(c, s) && p < |c.rows|
    ensures Inv(c, Set(c, s, p, StartS3(c, p, s.rows[p])))
  {
    ReceivingRowOk(c, s.active, p, s.rows[p], StartS3(c, p, s.rows[p]));
    SetKeepsInv(c, s, p, StartS3(c, p, s.rows[p]));
  }

  lemma {:induction false} RxLocalKeepsInv(c: Config, s: State, p: nat, ok: bool)
    requires c.Valid() && Inv(c, s) && p < |c.rows|
    ensures Inv(c, RxLocal(c, s, p, ok))
  {
    hide RowOk, ResetSessionTimer;
    var row := s.rows[p];
    ResetSessionTimerKeepsInv(c, s);
    StartS3KeepsInv(c, s, p);
    var timed :=
      if !ok || (row.localRxLen != 0 && row.localRxLen != row.localRxCount) then ResetSessionTimer(c, s)
      else if IsTesterPresent(row.localRxBuf) then Set(c, s, p, StartS3(c, p, row))
      else s;
    ReceivingRowOk(c, timed.active, p, timed.rows[p], timed.rows[p].(localRx := NotInUse, localRxPdu := None));
    SetKeepsInv(c, timed, p, timed.rows[p].(localRx := NotInUse, localRxPdu := None));
  }

  // A negative response starts only where no transmission of the row is on the way.
  lemma {:induction false} SendResponseKeepsInv(c: Config, s: State, p: nat, nrc: byte, ok: bool)
    requires c.Valid() && Inv(c, s) && p < |c.rows|
    requires s.rows[p].tx.ProvidedToDsd? || s.rows[p].tx.PreemptNrc?
    ensures var r := SendResponse(c, s, p, nrc, ok);
            && Inv(c, r.s) && r.s.active == s.active && r.s.preempting == s.preempting && r.s.busySent == s.busySent
            && r.sent == s.rows[p].localTx.NotInUse?
            && (forall q | 0 <= q < |c.rows| && q != p :: r.s.rows[q] == s.rows[q])
            && r.s.rows[p] == if r.sent
               then s.rows[p].(localTx := TransmitSignaled, localTxBuf := [0x7F, s.rows[p].rxBuf[0], nrc])
               else s.rows[p]
  {
    assert RowOk(c, s.active, p, s.rows[p]);
    var r := SendResponse(c, s, p, nrc, ok);
    if r.sent { SetKeepsInv(c, s, p, r.s.rows[p]); }
  }

  lemma {:induction false} DsdDoneKeepsInv(c: Config, s: State, pdu: nat, suppressed: bool, response: seq<byte>)
    requires c.Valid() && Inv(c, s)
    ensures Inv(c, DsdProcessingDone(c, s, pdu, suppressed, response).s)
  {
    if pdu < |c.rxRow| && s.rows[c.rxRow[pdu]].tx.ProvidedToDsd? {
      var p := c.rxRow[pdu];
      assert RowOk(c, s.active, p, s.rows[p]);
      SetKeepsInv(c, s, p, DsdProcessingDone(c, s, pdu, suppressed, response).s.rows[p]);
    }
  }

  lemma {:induction false} DsdPendingKeepsInv(c: Config, s: State, pdu: nat, ok: bool)
    requires c.Valid() && Inv(c, s)
    ensures Inv(c, DsdSendResponsePending(c, s, pdu, ok).s)
  {
    hide RowOk, SendResponse;
    if pdu < |c.rxRow| && s.rows[c.rxRow[pdu]].tx.ProvidedToDsd? {
      var p := c.rxRow[pdu];
      SendResponseKeepsInv(c, s, p, RESPONSE_PENDING, ok);
      var sent := SendResponse(c, s, p, RESPONSE_PENDING, ok).s;
      var row := DsdSendResponsePending(c, s, pdu, ok).s.rows[p];
      ReceivingRowOk(c, s.active, p, sent.rows[p], row);
      SetKeepsInv(c, sent, p, row);
    }
  }

  lemma {:induction false} ExternalChunkOk(c: Config, active: Option<nat>, p: nat, r: Row, count: nat)
    requires c.Valid() && p < |c.rows| && RowShape(c, p, r) && RowOk(c, active, p, r)
    requires Transmitting(r.tx) && count <= |r.response|
    ensures var t := r.(tx := ProvidedToPdur, txCount := count); RowShape(c, p, t) && RowOk(c, active, p, t)
  {
    hide ReachesObd;
  }

  lemma {:induction false} LocalChunkOk(c: Config, active: Option<nat>, p: nat, r: Row, count: nat)
    requires c.Valid() && p < |c.rows| && RowShape(c, p, r) && RowOk(c, active, p, r)
    requires Transmitting(r.localTx) && count <= 3
    ensures var t := r.(localTx := ProvidedToPdur, localTxCount := count); RowShape(c, p, t) && RowOk(c, active, p, t)
  {
    hide ReachesObd;
  }

  lemma {:induction false} CopyTxKeepsInv(c: Config, s: State, pdu: nat, n: nat)
    requires c.Valid() && Inv(c, s)
    ensures Inv(c, CopyTxData(c, s, pdu, n).s)
  {
    hide RowOk;
    if pdu < |c.txRow| {
      var p := c.txRow[pdu];
      var row := s.rows[p];
      if Transmitting(row.tx) {
        var at := if row.tx.TransmitSignaled? then 0 else row.txCount;
        var count := if at + n <= |row.response| then at + n else at;
        ExternalChunkOk(c, s.active, p, row, count);
        SetKeepsInv(c, s, p, row.(tx := ProvidedToPdur, txCount := count));
      } else if Transmitting(row.localTx) {
        var at := if row.localTx.TransmitSignaled? then 0 else row.localTxCount;
        var count := if at + n <= 3 then at + n else at;
        LocalChunkOk(c, s.active, p, row, count);
        SetKeepsInv(c, s, p, row.(localTx := ProvidedToPdur, localTxCount := count));
      }
    }
  }

  lemma {:induction false} TxConfirmationKeepsInv(c: Config, s: State, pdu: nat)
    requires c.Valid() && Inv(c, s)
    ensures Inv(c, TxConfirmation(c, s, pdu).s)
  {
    if pdu < |c.txRow| {
      var p := c.txRow[pdu];
      assert RowOk(c, s.active, p, s.rows[p]);
      if Transmitting(s.rows[p].tx) {
        SetKeepsInv(c, s, p, StartS3(c, p, Release(s.rows[p])));
      } else if Transmitting(s.rows[p].localTx) {
        SetKeepsInv(c, s, p, s.rows[p].(localTx := NotInUse));
      }
    }
  }

  lemma {:induction false} S3TickedOk(c: Config, active: Option<nat>, p: nat, r: Row)
    requires c.Valid() && p < |c.rows| && RowShape(c, p, r) && RowOk(c, active, p, r)
    ensures var t := S3Ticked(c.rows[p].obd, r);
            && RowShape(c, p, t)
            && (S3Left(r) == 0 && c.rows[p].obd ==>
                RowOk(c, None, p, t) && (active != Some(p) ==> RowOk(c, active, p, t)))
            && (S3Left(r) > 0 || !c.rows[p].obd ==> RowOk(c, active, p, t))
  {
  }

  lemma {:induction false} MainS3KeepsInv(c: Config, s: State, p: nat)
    requires c.Valid() && Inv(c, s) && p < |c.rows|
    ensures Inv(c, MainS3(c, s, p))
  {
    hide RowOk, RowShape;
    var row := s.rows[p];
    S3TickedOk(c, s.active, p, row);
    var t := S3Ticked(c.rows[p].obd, row);
    if s.active == Some(p) && S3Left(row) == 0 && c.rows[p].obd {
      CloseKeepsInv(c, s, t);
    } else {
      SetKeepsInv(c, s, p, t);
    }
  }

  lemma {:induction false} WaitRestarted(c: Config, s: State, q: nat)
    requires c.Valid() && Inv(c, s) && q < |c.rows|
    ensures RowShape(c, q, s.rows[q].(stateTimeout := P2StarCycles(c, q, s.rows[q].session, 0)))
    ensures Inv(c, Set(c, s, q, s.rows[q].(stateTimeout := P2StarCycles(c, q, s.rows[q].session, 0))))
  {
    hide P2StarCycles;
    var row := s.rows[q].(stateTimeout := P2StarCycles(c, q, s.rows[q].session, 0));
    assert RowOk(c, s.active, q, row) by { assert RowOk(c, s.active, q, s.rows[q]); }
    SetKeepsInv(c, s, q, row);
  }

  lemma {:induction false} MainWaitingKeepsInv(c: Config, s: State, p: nat, ok: bool)
    requires c.Valid() && Inv(c, s) && p < |c.rows| && s.rows[p].tx.ProvidedToDsd?
    ensures Inv(c, MainWaiting(c, s, p, ok).s)
  {
    hide SendResponse, RowShape, P2StarCycles, RowOk;
    var row := s.rows[p];
    if Decrement(row.stateTimeout) > 0 {
      WaitGoesOn(c, s, p);
    } else {
      WaitRestarted(c, s, p);
      var again := Set(c, s, p, row.(stateTimeout := P2StarCycles(c, p, row.session, 0)));
      var nrc := if c.forcePending && row.pendingCount != 0 then RESPONSE_PENDING else GENERAL_REJECT;
      SendResponseKeepsInv(c, again, p, nrc, ok);
      WaitingRowOk(c, again.active, p, SendResponse(c, again, p, nrc, ok).s.rows[p], row.pendingCount);
      SetKeepsInv(c, SendResponse(c, again, p, nrc, ok).s, p, MainWaiting(c, s, p, ok).s.rows[p]);
    }
  }

  lemma {:induction false} WaitGoesOn(c: Config, s: State, p: nat)
    requires c.Valid() && Inv(c, s) && p < |c.rows|
    ensures RowShape(c, p, s.rows[p].(stateTimeout := Decrement(s.rows[p].stateTimeout)))
    ensures Inv(c, Set(c, s, p, s.rows[p].(stateTimeout := Decrement(s.rows[p].stateTimeout))))
  {
    hide RowOk;
    var row := s.rows[p].(stateTimeout := Decrement(s.rows[p].stateTimeout));
    ReceivingRowOk(c, s.active, p, s.rows[p], row);
    SetKeepsInv(c, s, p, row);
  }

  lemma {:induction false} WaitingRowOk(c: Config, active: Option<nat>, p: nat, r: Row, count: nat)
    requires c.Valid() && p < |c.rows| && RowShape(c, p, r) && RowOk(c, active, p, r) && r.tx.ProvidedToDsd?
    ensures RowShape(c, p, Release(r)) && RowOk(c, active, p, Release(r))
    ensures count > 0 ==> var t := r.(pendingCount := count - 1); RowShape(c, p, t) && RowOk(c, active, p, t)
  {
    hide ReachesObd, Reached;
  }

  lemma {:induction false} MainTransmitKeepsInv(c: Config, s: State, p: nat, ok: bool)
    requires c.Valid() && Inv(c, s) && p < |c.rows| && s.rows[p].tx.ResponseReady?
    ensures Inv(c, MainTransmit(c, s, p, ok).s)
  {
    assert RowOk(c, s.active, p, s.rows[p]);
    var t := MainTransmit(c, s, p, ok).s;
    if t != s { SetKeepsInv(c, s, p, t.rows[p]); }
  }

  lemma {:induction false} ClosedRowOk(c: Config, active: Option<nat>, p: nat, r: Row)
    requires c.Valid() && p < |c.rows| && RowShape(c, p, r) && RowOk(c, active, p, r)
    ensures RowOk(c, None, p, Closed(r))
    ensures r.tx.PreemptNrc? ==> active != Some(p) && RowOk(c, active, p, Release(r))
  {
    hide ReachesObd, Reached, RowShape;
  }

  lemma {:induction false} GiveWayKeepsInv(c: Config, s: State, p: nat)
    requires c.Valid() && Inv(c, s) && p < |c.rows| && s.rows[p].tx.PreemptNrc?
    ensures Inv(c, GiveWay(c, s, p))
  {
    hide RowOk;
    ClosedRowOk(c, s.active, p, s.rows[p]);
    if s.active.Some? {
      var a := s.active.value;
      ClosedRowOk(c, s.active, a, s.rows[a]);
      if s.rows[a].tx.NotInUse? || s.rows[p].preemptTimeout == 0 {
        CloseKeepsInv(c, s, Closed(s.rows[a]));
        var t := Set(c, s, a, Closed(s.rows[a])).(active := None, preempting := false);
        assert Inv(c, t);
        OtherActive(c, s.active, None, p, Release(s.rows[p]));
        SetKeepsInv(c, t, p, Release(t.rows[p]));
      }
    }
  }

  lemma {:induction false} MainPreemptingKeepsInv(c: Config, s: State, p: nat, ok: bool)
    requires c.Valid() && Inv(c, s) && p < |c.rows| && s.rows[p].tx.PreemptNrc?
    ensures Inv(c, MainPreempting(c, s, p, ok).s)
  {
    if s.preempting {
      assert RowOk(c, s.active, p, s.rows[p]);
      var told := TellBusy(c, s, p, ok);
      if !s.busySent {
        SendResponseKeepsInv(c, s, p, BUSY_REPEAT_REQUEST, ok);
        var busy := SendResponse(c, s, p, BUSY_REPEAT_REQUEST, ok);
        if busy.accepted { SetKeepsInv(c, busy.s, p, busy.s.rows[p].(rx := NotInUse, rxBusy := false)); }
      }
      assert RowOk(c, told.active, p, told.rows[p]);
      SetKeepsInv(c, told, p, told.rows[p].(preemptTimeout := Decrement(told.rows[p].preemptTimeout)));
      GiveWayKeepsInv(c, Set(c, told, p, told.rows[p].(preemptTimeout := Decrement(told.rows[p].preemptTimeout))), p);
    }
  }

  lemma {:induction false} MainRowKeepsInv(c: Config, s: State, p: nat, ok: bool)
    requires c.Valid() && Inv(c, s) && p < |c.rows|
    ensures Inv(c, MainRow(c, s, p, ok).s)
  {
    hide MainS3, MainWaiting, MainTransmit, MainPreempting, RowOk, RowShape;
    MainS3KeepsInv(c, s, p);
    var s' := MainS3(c, s, p);
    match s'.rows[p].tx
    case ProvidedToDsd => MainWaitingKeepsInv(c, s', p, ok);
    case ResponseReady => MainTransmitKeepsInv(c, s', p, ok);
    case PreemptNrc => MainPreemptingKeepsInv(c, s', p, ok);
    case _ =>
  }

  lemma {:induction false} MainRowsKeepInv(c: Config, s: State, oks: seq<bool>, n: nat)
    requires c.Valid() && Inv(c, s) && n <= |c.rows| == |oks|
    ensures Inv(c, MainRows(c, s, oks, n).s)
  {
    hide MainRow, RowOk, RowShape;
    if n > 0 {
      MainRowsKeepInv(c, s, oks, n - 1);
      MainRowKeepsInv(c, MainRows(c, s, oks, n - 1).s, n - 1, oks[n - 1]);
    }
  }

  lemma {:induction false} RxKeepsInv(c: Config, s: State, pdu: nat, ok: bool, startOk: bool, stopOk: bool)
    requires c.Valid() && Inv(c, s)
    ensures Inv(c, RxIndication(c, s, pdu, ok, startOk, stopOk).s)
  {
    hide RxExternal, RxLocal;
    if pdu < |c.rxRow| && ReceivesExternal(s.rows[c.rxRow[pdu]], pdu) {
      RxExternalKeepsInv(c, s, c.rxRow[pdu], pdu, ok, startOk, stopOk);
    } else if pdu < |c.rxRow| {
      RxLocalKeepsInv(c, s, c.rxRow[pdu], ok);
    }
  }

  lemma {:induction false} SetSessionKeepsInv(c: Config, s: State, session: nat)
    requires c.Valid() && Inv(c, s)
    ensures Inv(c, SetSession(c, s, session).s)
  {
    if s.active.Some? {
      var a := s.active.value;
      assert RowOk(c, s.active, a, s.rows[a]);
      SetKeepsInv(c, s, a, StartS3(c, a, s.rows[a].(session := session)));
    }
  }

  lemma {:induction false} StepKeepsInv(c: Config, s: State, e: Event)
    requires c.Valid() && Inv(c, s) && EventOk(c, e)
    ensures Inv(c, Step(c, s, e).s)
  {
    hide StartOfReception, CopyRxData, RxIndication, DsdProcessingDone, DsdSendResponsePending, SetSession, MainRows,
      CopyTxData, TxConfirmation, RowOk;
    match e
    case StartRx(pdu, len, internal) => StartOfReceptionKeepsInv(c, s, pdu, len, internal);
    case CopyRx(pdu, chunk) => CopyRxKeepsInv(c, s, pdu, chunk);
    case EndRx(pdu, ok, startOk, stopOk) => RxKeepsInv(c, s, pdu, ok, startOk, stopOk);
    case DsdDone(pdu, suppressed, response) => DsdDoneKeepsInv(c, s, pdu, suppressed, response);
    case DsdPending(pdu, taken) => DsdPendingKeepsInv(c, s, pdu, taken);
    case CopyTx(pdu, n) => CopyTxKeepsInv(c, s, pdu, n);
    case EndTx(pdu) => TxConfirmationKeepsInv(c, s, pdu);
    case ChangeSession(session) => SetSessionKeepsInv(c, s, session);
    case Main(oks) => MainRowsKeepInv(c, s, oks, |oks|);
  }

  lemma {:induction false} RunKeepsInv(c: Config, s: State, es: seq<Event>)
    requires c.Valid() && Inv(c, s) && EventsOk(c, es)
    ensures Inv(c, Run(c, s, es))
    decreases es
  {
    if es != [] {
      StepKeepsInv(c, s, es[0]);
      RunKeepsInv(c, Step(c, s, es[0]).s, es[1..]);
    }
  }

  // ---------- Safety over every run ----------

  lemma {:induction false} InitInv(c: Config)
    requires c.Valid()
    ensures Inv(c, Init(c))
  {
  }

  // Exactly the active protocol is marked as started.
  lemma {:induction false} StartedIffActive(c: Config, es: seq<Event>, p: nat)
    requires c.Valid() && EventsOk(c, es) && p < |c.rows|
    ensures var s := Run(c, Init(c), es); s.rows[p].started <==> s.active == Some(p)
  {
    InitInv(c);
    RunKeepsInv(c, Init(c), es);
    var s := Run(c, Init(c), es);
    assert RowOk(c, s.active, p, s.rows[p]);
  }

  // Who owns which buffer, in every reachable state.
  lemma {:induction false} BufferOwnership(c: Config, es: seq<Event>, p: nat)
    requires c.Valid() && EventsOk(c, es) && p < |c.rows|
    ensures var r := Run(c, Init(c), es).rows[p];
            && (r.rxBusy <==> !r.rx.NotInUse?)
            && (InFlight(r) <==> r.rx.ProvidedToDsd?)
            && !(Transmitting(r.tx) && Transmitting(r.localTx))
  {
    InitInv(c);
    RunKeepsInv(c, Init(c), es);
    var s := Run(c, Init(c), es);
    assert RowOk(c, s.active, p, s.rows[p]);
  }

  // A confirmation ends the one transmission of its row that was under way, and touches no
  // other row.
  lemma {:induction false} ConfirmationIsUnambiguous(c: Config, s: State, pdu: nat)
    requires c.Valid() && Inv(c, s) && pdu < |c.txRow|
    ensures var p := c.txRow[pdu];
            var r := TxConfirmation(c, s, pdu);
            && (r.reply == Confirmed(true) <==> Transmitting(s.rows[p].tx))
            && (r.reply == Confirmed(false) <==> Transmitting(s.rows[p].localTx))
            && (r.reply == Confirmed(true) ==>
                  r.s.rows[p].tx.NotInUse? && r.s.rows[p].rx.NotInUse? && !r.s.rows[p].rxBusy
                  && r.s.rows[p].localTx == s.rows[p].localTx)
            && (r.reply == Confirmed(false) ==> r.s.rows[p] == s.rows[p].(localTx := NotInUse))
            && !Transmitting(r.s.rows[p].tx) && !Transmitting(r.s.rows[p].localTx)
            && forall q | 0 <= q < |c.rows| && q != p :: r.s.rows[q] == s.rows[q]
  {
    assert RowOk(c, s.active, c.txRow[pdu], s.rows[c.txRow[pdu]]);
  }
}
