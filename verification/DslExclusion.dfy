/** Which configurations of the DSL keep requests apart: at most one row with a request at the
    DSD or a response on the way. */
module DslExclusion {
  import opened Dsl
  import opened Prelude

  // Receive PDUs lead to an OBD row and to another row.
  ghost predicate ObdBesideAnother(c: Config)
    requires c.Valid()
  {
    exists i, j | 0 <= i < |c.rxRow| && 0 <= j < |c.rxRow| :: c.rows[c.rxRow[i]].obd && c.rxRow[j] != c.rxRow[i]
  }

  ghost predicate TwoInFlight(c: Config, es: seq<Event>)
    requires c.Valid() && EventsOk(c, es)
  {
    var s := Run(c, Init(c), es);
    exists p, q | 0 <= p < q < |c.rows| :: InFlight(s.rows[p]) && InFlight(s.rows[q])
  }

  ghost predicate StoppedInFlight(c: Config, es: seq<Event>)
    requires c.Valid() && EventsOk(c, es)
  {
    var s := Run(c, Init(c), es);
    exists p | 0 <= p < |c.rows| :: InFlight(s.rows[p]) && !s.rows[p].started
  }

  // ---------- What holds ----------

  // In every configuration: a row no receive PDU leads to is never used, and one that is used
  // although it is not started is an OBD row or waits to preempt.
  lemma {:induction false} UsedRows(c: Config, es: seq<Event>, p: nat)
    requires c.Valid() && EventsOk(c, es) && p < |c.rows|
    ensures var r := Run(c, Init(c), es).rows[p];
            && (!Reached(c, p) ==> !r.started && r.tx.NotInUse?)
            && (!ReachesObd(c) && !r.started ==> r.tx.NotInUse? || r.tx.PreemptNrc?)
  {
    InitInv(c);
    RunKeepsInv(c, Init(c), es);
    var s := Run(c, Init(c), es);
    assert RowOk(c, s.active, p, s.rows[p]);
    if !s.rows[p].tx.NotInUse? { assert OnRxRow(c, s.rows[p].diagReq, p); }
  }

  lemma {:induction false} OneRequestInFlight(c: Config, es: seq<Event>, p: nat, q: nat)
    requires c.Valid() && EventsOk(c, es) && !ObdBesideAnother(c) && p < |c.rows| && q < |c.rows|
    ensures var s := Run(c, Init(c), es);
            InFlight(s.rows[p]) && InFlight(s.rows[q]) ==> p == q
  {
    InitInv(c);
    RunKeepsInv(c, Init(c), es);
    var s := Run(c, Init(c), es);
    assert RowOk(c, s.active, p, s.rows[p]) && RowOk(c, s.active, q, s.rows[q]);
  }

  // ---------- What breaks it ----------

  function RequestOn(pdu: nat): seq<Event> {
    [StartRx(pdu, 2, false), CopyRx(pdu, [1, 0]), EndRx(pdu, true, true, true)]
  }

  // With no protocol active, a request on a free row reaches the DSD and its row becomes active.
  lemma {:induction false} RequestReachesDsd(c: Config, s: State, pdu: nat)
    requires c.Valid() && Shape(c, s) && pdu < |c.rxRow| && s.active.None?
    requires var row := s.rows[c.rxRow[pdu]]; row.rx.NotInUse? && !row.rxBusy && !row.started
    ensures var p := c.rxRow[pdu];
            var t := Run(c, s, RequestOn(pdu));
            && t.active == Some(p) && t.preempting == s.preempting && t.rows[p].tx.ProvidedToDsd?
            && t.rows[p].localTx == s.rows[p].localTx
            && t.rows[p].session == (if c.rows[p].obd then OBD_SESSION else DEFAULT_SESSION)
            && t.rows[p].s3Started == false && t.rows[p].s3Count == s.rows[p].s3Count
            && t.rows[p].stateTimeout == c.Cycles(AdjustP2Timing(c.p2(t.rows[p].session), c.rows[p].p2Adjust))
            && forall q | 0 <= q < |c.rows| && q != p :: t.rows[q] == s.rows[q]
  {
    var p := c.rxRow[pdu];
    assert RowShape(c, p, s.rows[p]);
    var es := RequestOn(pdu);
    var s1 := StartOfReception(c, s, pdu, 2, false).s;
    var s2 := CopyRxData(c, s1, pdu, [1, 0]).s;
    assert s2.rows[p].rxBuf[0] == 1 && s2.rows[p].rxCount == 2 == s2.rows[p].rxLen
      && ReceivesExternal(s2.rows[p], pdu) by {
      OneWrite(s1.rows[p].rxBuf);
    }
    hide RowShape;
    var s3 := RxIndication(c, s2, pdu, true, true, true).s;
    assert es[1..] == [es[1], es[2]] && es[1..][1..] == [es[2]] && [es[2]][1..] == [];
    assert Run(c, s2, [es[2]]) == s3;
    assert Run(c, s1, es[1..]) == s3;
  }

  lemma {:induction false} OneWrite(buf: seq<byte>)
    requires |buf| >= 2
    ensures Write(buf, 0, [1, 0])[0] == 1
  {
  }

  lemma {:induction false} RunAppend(c: Config, s: State, es: seq<Event>, fs: seq<Event>)
    requires c.Valid() && Shape(c, s) && EventsOk(c, es) && EventsOk(c, fs)
    ensures EventsOk(c, es + fs) && Run(c, s, es + fs) == Run(c, Run(c, s, es), fs)
    decreases es
  {
    hide Step, Shape;
    if es == [] {
      assert es + fs == fs;
    } else {
      assert (es + fs)[1..] == es[1..] + fs;
      RunAppend(c, Step(c, s, es[0]).s, es[1..], fs);
    }
  }

  lemma {:induction false} RunOne(c: Config, s: State, e: Event)
    requires c.Valid() && Shape(c, s) && EventOk(c, e)
    ensures Run(c, s, [e]) == Step(c, s, e).s
  {
    hide Step, Shape;
    assert [e][1..] == [];
  }

  // A main-function call that finds one row at work: the others rest.
  lemma {:induction false} OthersRest(c: Config, s: State, oks: seq<bool>, n: nat, p: nat)
    requires c.Valid() && Shape(c, s) && n <= |c.rows| == |oks| && p < |c.rows|
    requires forall q | 0 <= q < |c.rows| && q != p ::
               && s.rows[q].tx.NotInUse? && s.rows[q].session == DEFAULT_SESSION
               && MainRow(c, s, p, oks[p]).s.rows[q] == s.rows[q]
    ensures MainRows(c, s, oks, n).s == if n <= p then s else MainRow(c, s, p, oks[p]).s
  {
    hide RowShape, MainWaiting, MainTransmit, MainPreempting;
    if n > 0 { OthersRest(c, s, oks, n - 1, p); }
  }

  // The session of an OBD row ends although its response is about to go out.
  lemma {:induction false} ObdSessionEnds(c: Config, s: State, p: nat)
    requires c.Valid() && Inv(c, s) && p < |c.rows| && c.rows[p].obd && s.active == Some(p)
    requires s.rows[p].tx.ResponseReady? && s.rows[p].localTx.NotInUse?
    requires s.rows[p].session != DEFAULT_SESSION && s.rows[p].s3Count == 0
    ensures var t := MainRow(c, s, p, true).s;
            && t.active.None? && t.rows[p].tx.TransmitSignaled? && !t.rows[p].started
            && forall q | 0 <= q < |c.rows| && q != p :: t.rows[q] == s.rows[q]
  {
    assert c.rxRow[s.rows[p].diagReq] == p by { assert RowOk(c, s.active, p, s.rows[p]); }
    hide RowShape, RowOk;
  }

  function AllOk(c: Config): (oks: seq<bool>)
    ensures |oks| == |c.rows|
  {
    seq(|c.rows|, _ => true)
  }

  // An OBD request, its response, and a main-function call before the session timer runs.
  function ObdRun(c: Config, i: nat): seq<Event> {
    RequestOn(i) + [DsdDone(i, false, []), Main(AllOk(c))]
  }

  // Every configuration whose receive PDUs lead to an OBD row does this: the row is closed
  // while its response goes out.
  lemma {:induction false} AnyObdRowIsStopped(c: Config, i: nat)
    requires c.Valid() && i < |c.rxRow| && c.rows[c.rxRow[i]].obd
    ensures var p := c.rxRow[i];
            && EventsOk(c, ObdRun(c, i))
            && var s := Run(c, Init(c), ObdRun(c, i));
               && InFlight(s.rows[p]) && !s.rows[p].started && s.active.None?
               && forall q | 0 <= q < |c.rows| && q != p :: s.rows[q] == InitRow(c, q)
  {
    hide Run, MainRow, MainRows, RowShape, RowOk;
    var p, done, tick := c.rxRow[i], DsdDone(i, false, []), Main(AllOk(c));
    RequestReachesDsd(c, Init(c), i);
    var s1 := Run(c, Init(c), RequestOn(i));
    InitInv(c);
    RunKeepsInv(c, Init(c), RequestOn(i));
    StepKeepsInv(c, s1, done);
    var s2 := Step(c, s1, done).s;
    ObdSessionEnds(c, s2, p);
    OthersRest(c, s2, AllOk(c), |c.rows|, p);
    RunOne(c, s1, done);
    RunOne(c, s2, tick);
    RunAppend(c, s1, [done], [tick]);
    RunAppend(c, Init(c), RequestOn(i), [done] + [tick]);
    assert ObdRun(c, i) == RequestOn(i) + ([done] + [tick]);
  }

  // And if they also lead to another row, that row's request joins it.
  lemma {:induction false} AnyRowJoinsIt(c: Config, i: nat, j: nat)
    requires c.Valid() && i < |c.rxRow| && j < |c.rxRow| && c.rows[c.rxRow[i]].obd && c.rxRow[j] != c.rxRow[i]
    ensures var es := ObdRun(c, i) + RequestOn(j);
            && EventsOk(c, es)
            && var s := Run(c, Init(c), es);
               InFlight(s.rows[c.rxRow[i]]) && InFlight(s.rows[c.rxRow[j]])
  {
    hide Run, RowShape, ObdRun;
    AnyObdRowIsStopped(c, i);
    RequestReachesDsd(c, Run(c, Init(c), ObdRun(c, i)), j);
    RunAppend(c, Init(c), ObdRun(c, i), RequestOn(j));
  }

  // ---------- Exactly then ----------

  // Some run has two rows in flight exactly if receive PDUs lead to an OBD row and to another.
  lemma {:induction false} TwoInFlightExactly(c: Config)
    requires c.Valid()
    ensures (exists es | EventsOk(c, es) :: TwoInFlight(c, es)) <==> ObdBesideAnother(c)
  {
    hide Run, RowShape;
    if ObdBesideAnother(c) {
      var i, j :| 0 <= i < |c.rxRow| && 0 <= j < |c.rxRow| && c.rows[c.rxRow[i]].obd && c.rxRow[j] != c.rxRow[i];
      AnyRowJoinsIt(c, i, j);
      assert TwoInFlight(c, ObdRun(c, i) + RequestOn(j));
    } else {
      forall es | EventsOk(c, es) ensures !TwoInFlight(c, es) {
        forall p, q | 0 <= p < q < |c.rows|
          ensures var s := Run(c, Init(c), es); !(InFlight(s.rows[p]) && InFlight(s.rows[q]))
        {
          OneRequestInFlight(c, es, p, q);
        }
      }
    }
  }

  // Some run has a request in flight on a row that is not started exactly if receive PDUs lead
  // to an OBD row at all.
  lemma {:induction false} StoppedInFlightExactly(c: Config)
    requires c.Valid()
    ensures (exists es | EventsOk(c, es) :: StoppedInFlight(c, es)) <==> ReachesObd(c)
  {
    hide Run, RowShape;
    if ReachesObd(c) {
      var i :| 0 <= i < |c.rxRow| && c.rows[c.rxRow[i]].obd;
      AnyObdRowIsStopped(c, i);
      assert StoppedInFlight(c, ObdRun(c, i));
    } else {
      forall es | EventsOk(c, es) ensures !StoppedInFlight(c, es) {
        forall p | 0 <= p < |c.rows|
          ensures var s := Run(c, Init(c), es); !(InFlight(s.rows[p]) && !s.rows[p].started)
        {
          UsedRows(c, es, p);
        }
      }
    }
  }
}
