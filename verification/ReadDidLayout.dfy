/** What a positive ReadDataByIdentifier response looks like (section 10.2 of ISO 14229-1:2013):
    the identifiers of all visited DIDs in the order of the walk, each in front of its data. */
module ReadDidLayout {
  import opened Bits
  import opened Prelude
  import opened SRSignal
  import opened ReadDid
  import opened ReadDidGrowth
  import opened ReadDidValues

  // A node leaves its identifier at the write position and touches nothing before it.
  lemma {:induction false} NodeLaysOut(answers: nat -> Answer, limit: nat, did: Did, st: St)
    requires limit <= |st.buf| && st.txPos <= limit && SignalsOk(did) && st.phase.Idle?
    ensures Node(answers, limit, did, 0, st).code.Positive? ==>
              var r := Node(answers, limit, did, 0, st).st;
              && Grew(st, r, st.txPos, limit) && r.phase.Idle? && st.txPos + 2 <= r.txPos
              && r.buf[st.txPos..st.txPos + 2] == IdBytes(did.id)
  {
    hide ReadSignals, IdBytes;
    if !Node(answers, limit, did, 0, st).code.Positive? { return; }
    var n := st.txPos;
    var id := IdBytes(did.id);
    assert Write(st.buf, n, id)[..n] == st.buf[..n] && Write(st.buf, n, id)[n..n + 2] == id;
    if !did.onlyRefs {
      var begun := Begin(did, st);
      var withId := Write(st.buf, n, id);
      WriteKeepsFront(withId, n + 2, ZeroBytes(did.size), n + 2);
      assert begun.buf[..n + 2] == withId[..n + 2];
      SignalsGrow(answers, limit, did.signals, st.signalIndex, begun);
      var r := ReadSignals(answers, limit, did.signals, st.signalIndex, begun).st;
      assert r.buf[..n + 2] == withId[..n + 2];
      assert r.buf[..n] == r.buf[..n + 2][..n] && withId[..n] == withId[..n + 2][..n];
      assert r.buf[n..n + 2] == r.buf[..n + 2][n..] && withId[n..n + 2] == withId[..n + 2][n..];
    }
  }

  // ps: where the identifiers are, one behind the other, between the two bounds.
  ghost predicate Placed(buf: seq<Byte>, ps: seq<nat>, ids: seq<nat>, from: nat, to: nat) {
    && |ps| == |ids| && from <= to <= |buf|
    && (forall k | 0 <= k < |ps| :: from <= ps[k] && ps[k] + 2 <= to && buf[ps[k]..ps[k] + 2] == IdBytes(ids[k]))
    && forall k, l | 0 <= k < l < |ps| :: ps[k] + 2 <= ps[l]
  }

  // Identifiers stay where they are while the response grows behind them.
  lemma {:induction false} PlacedStays(a: seq<Byte>, b: seq<Byte>, ps: seq<nat>, ids: seq<nat>, from: nat, to: nat)
    requires Placed(a, ps, ids, from, to) && |b| == |a| && b[..to] == a[..to]
    ensures Placed(b, ps, ids, from, to)
  {
    forall k | 0 <= k < |ps| ensures b[ps[k]..ps[k] + 2] == IdBytes(ids[k]) {
      assert b[ps[k]..ps[k] + 2] == b[..to][ps[k]..ps[k] + 2] && a[ps[k]..ps[k] + 2] == a[..to][ps[k]..ps[k] + 2];
    }
  }

  lemma {:induction false} PlacedJoins(buf: seq<Byte>, ps: seq<nat>, qs: seq<nat>, ids: seq<nat>, jds: seq<nat>,
                                       from: nat, mid: nat, to: nat)
    requires Placed(buf, ps, ids, from, mid) && Placed(buf, qs, jds, mid, to)
    ensures Placed(buf, ps + qs, ids + jds, from, to)
  {
    hide IdBytes;
  }

  function Ids(nodes: seq<Did>): (ids: seq<nat>)
    ensures |ids| == |nodes|
  {
    seq(|nodes|, i requires 0 <= i < |nodes| => nodes[i].id)
  }

  // The DIDs of a list of nodes are in the response, one behind the other: identifiers and values.
  ghost predicate Laid(answers: nat -> Answer, buf: seq<Byte>, ps: seq<nat>, nodes: seq<Did>, base: nat, from: nat,
                       to: nat)
    requires NodesOk(nodes)
  {
    Placed(buf, ps, Ids(nodes), from, to) && Valued(answers, buf, ps, nodes, base, from, to)
  }

  lemma {:induction false} LaidStays(answers: nat -> Answer, a: seq<Byte>, b: seq<Byte>, ps: seq<nat>, nodes: seq<Did>,
                                     base: nat, from: nat, to: nat)
    requires NodesOk(nodes) && Laid(answers, a, ps, nodes, base, from, to) && |b| == |a| && b[..to] == a[..to]
    ensures Laid(answers, b, ps, nodes, base, from, to)
  {
    PlacedStays(a, b, ps, Ids(nodes), from, to);
    ValuedStays(answers, a, b, ps, nodes, base, from, to);
  }

  lemma {:induction false} LaidJoins(answers: nat -> Answer, buf: seq<Byte>, ps: seq<nat>, qs: seq<nat>,
                                     nodes: seq<Did>, more: seq<Did>, base: nat, from: nat, mid: nat, to: nat)
    requires NodesOk(nodes) && NodesOk(more) && NodesOk(nodes + more)
    requires Laid(answers, buf, ps, nodes, base, from, mid)
    requires Laid(answers, buf, qs, more, base + CallsOfNodes(nodes, |nodes|), mid, to)
    ensures Laid(answers, buf, ps + qs, nodes + more, base, from, to)
    ensures CallsOfNodes(nodes + more, |nodes + more|) == CallsOfNodes(nodes, |nodes|) + CallsOfNodes(more, |more|)
  {
    hide IdBytes, CallsOfNodes, Valued;
    PlacedJoins(buf, ps, qs, Ids(nodes), Ids(more), from, mid, to);
    assert Ids(nodes + more) == Ids(nodes) + Ids(more);
    ValuedJoins(answers, buf, ps, qs, nodes, more, base, from, mid, to);
  }

  // What a direct run from a to b has added to the response.
  ghost predicate LaysOut(answers: nat -> Answer, limit: nat, ps: seq<nat>, nodes: seq<Did>, a: St, b: St)
    requires NodesOk(nodes)
  {
    && Grew(a, b, a.txPos, limit) && b.phase.Idle? && b.turns == [] && b.signalIndex == 0
    && b.settled == a.settled + CallsOfNodes(nodes, |nodes|)
    && Laid(answers, b.buf, ps, nodes, a.settled, a.txPos, b.txPos)
  }

  lemma {:induction false} NodeLaid(answers: nat -> Answer, limit: nat, did: Did, st: St)
    requires limit <= |st.buf| && st.txPos <= limit && SignalsOk(did) && st.phase.Idle? && st.turns == []
             && st.signalIndex == 0
    ensures Node(answers, limit, did, 0, st).code.Positive? ==>
              LaysOut(answers, limit, [st.txPos], [did], st, Node(answers, limit, did, 0, st).st)
  {
    hide Node, IdBytes, NodeCarries;
    NodeLaysOut(answers, limit, did, st);
    NodeCarriesItsValues(answers, limit, did, st);
    assert CallsOfNodes([did], 0) == 0 && CallsOfNodes([did], 1) == CallsOfNode(did);
  }

  lemma {:induction false} LaysOutJoins(answers: nat -> Answer, limit: nat, ps: seq<nat>, qs: seq<nat>, nodes: seq<Did>,
                                        more: seq<Did>, a: St, b: St, d: St)
    requires NodesOk(nodes) && NodesOk(more) && NodesOk(nodes + more) && a.txPos <= limit
    requires LaysOut(answers, limit, ps, nodes, a, b) && LaysOut(answers, limit, qs, more, b, d)
    ensures LaysOut(answers, limit, ps + qs, nodes + more, a, d)
  {
    hide Laid, CallsOfNodes;
    LaidReaches(answers, b.buf, ps, nodes, a.settled, a.txPos, b.txPos);
    LaidStays(answers, b.buf, d.buf, ps, nodes, a.settled, a.txPos, b.txPos);
    LaidJoins(answers, d.buf, ps, qs, nodes, more, a.settled, a.txPos, b.txPos, d.txPos);
    assert d.buf[..a.txPos] == d.buf[..b.txPos][..a.txPos] && b.buf[..a.txPos] == b.buf[..b.txPos][..a.txPos];
  }

  lemma {:induction false} LaidReaches(answers: nat -> Answer, buf: seq<Byte>, ps: seq<nat>, nodes: seq<Did>, base: nat,
                                       from: nat, to: nat)
    requires NodesOk(nodes) && Laid(answers, buf, ps, nodes, base, from, to)
    ensures from <= to <= |buf|
  {
  }

  lemma {:induction false} NothingLaid(answers: nat -> Answer, limit: nat, st: St)
    requires limit <= |st.buf| && st.txPos <= limit && st.phase.Idle? && st.turns == [] && st.signalIndex == 0
    ensures LaysOut(answers, limit, [], [], st, st)
  {
  }

  lemma {:induction false} WalkLaysOut(answers: nat -> Answer, limit: nat, nodes: seq<Did>, st: St)
    returns (ps: seq<nat>)
    requires limit <= |st.buf| && st.txPos <= limit && NodesOk(nodes)
    requires st.phase.Idle? && st.turns == [] && st.signalIndex == 0
    ensures var r := Walk(answers, limit, nodes, 0, st); r.code.Positive? ==>
              LaysOut(answers, limit, ps, nodes, st, r.st)
    decreases nodes
  {
    hide Node, IdBytes, Laid, CallsOfNodes;
    ps := [];
    if nodes == [] {
      NothingLaid(answers, limit, st);
    } else if Walk(answers, limit, nodes, 0, st).code.Positive? {
      NodeLaid(answers, limit, nodes[0], st);
      var n := Node(answers, limit, nodes[0], 0, st).st;
      forall i | 0 <= i < |nodes[1..]| ensures SignalsOk(nodes[1..][i]) { assert nodes[1..][i] == nodes[i + 1]; }
      var qs := WalkLaysOut(answers, limit, nodes[1..], n);
      var r := Walk(answers, limit, nodes, 0, st).st;
      assert nodes == [nodes[0]] + nodes[1..];
      LaysOutJoins(answers, limit, [st.txPos], qs, [nodes[0]], nodes[1..], st, n, r);
      ps := [st.txPos] + qs;
    }
  }

  // What a positive response must hold: the supported requested DIDs and everything they refer to.
  function Visited(req: Request, i: nat): seq<Did>
    decreases req.Count() - i
  {
    if i >= req.Count() then []
    else (if req.Supported(i) then req.Nodes(i) else []) + Visited(req, i + 1)
  }

  ghost predicate LookupOk(req: Request) { forall id | id in req.lookup :: ValidDid(req.lookup[id]) }

  lemma {:induction false} VisitedOk(req: Request, i: nat)
    requires LookupOk(req)
    ensures NodesOk(Visited(req, i))
    decreases req.Count() - i
  {
    hide Preorder, ValidDid;
    if i < req.Count() {
      VisitedOk(req, i + 1);
      if req.Supported(i) { PreorderOk(req.lookup[req.Id(i)]); }
    }
  }

  lemma {:induction false} ReadFromLaysOut(answers: nat -> Answer, limit: nat, req: Request, i: nat, st: St)
    returns (ps: seq<nat>)
    requires limit <= |st.buf| && st.txPos <= limit && LookupOk(req)
    requires st.phase.Idle? && st.turns == [] && st.signalIndex == 0
    ensures NodesOk(Visited(req, i))
    ensures var r := ReadFrom(answers, limit, req, i, 0, st);
            r.code.Positive? ==> LaysOut(answers, limit, ps, Visited(req, i), st, r.st)
    decreases req.Count() - i
  {
    hide Walk, Preorder, ValidDid, Laid, CallsOfNodes, NodesOk;
    ps := [];
    VisitedOk(req, i);
    if i >= req.Count() {
      NothingLaid(answers, limit, st);
    } else if ReadFrom(answers, limit, req, i, 0, st).code.Positive? {
      if !req.Supported(i) {
        ps := ReadFromLaysOut(answers, limit, req, i + 1, st);
        assert Visited(req, i) == Visited(req, i + 1);
      } else {
        PreorderOk(req.lookup[req.Id(i)]);
        var os := WalkLaysOut(answers, limit, req.Nodes(i), st);
        var w := Walk(answers, limit, req.Nodes(i), 0, st).st;
        var qs := ReadFromLaysOut(answers, limit, req, i + 1, w.(didIndex := 0));
        var r := ReadFrom(answers, limit, req, i, 0, st).st;
        LaysOutJoins(answers, limit, os, qs, req.Nodes(i), Visited(req, i + 1), st, w.(didIndex := 0), r);
        ps := os + qs;
      }
    }
  }

  // However often it was suspended: a positive response keeps the byte of the service, stays
  // within the limit, and holds the identifiers of all visited DIDs in the order of the walk, each
  // with its data right behind and nothing else. Each sender-receiver signal that no later signal of
  // its DID overlaps unpacks to the value its own read callback gave, each byte of another port that
  // no later signal has is the one its own read callback gave, and bytes no signal has are zero.
  lemma {:induction false} ResponseLayout(answers: nat -> Answer, limit: nat, req: Request, st: St)
    returns (ps: seq<nat>)
    requires 1 <= limit <= |st.buf| && st.phase.Idle? && LookupOk(req)
    ensures NodesOk(Visited(req, 0))
    ensures Serve(answers, limit, req, st).code.Positive? ==>
              var r := Serve(answers, limit, req, st).st;
              && r.txPos <= limit && r.buf[..1] == st.buf[..1]
              && Placed(r.buf, ps, Ids(Visited(req, 0)), 1, r.txPos)
              && Valued(answers, r.buf, ps, Visited(req, 0), st.settled, 1, r.txPos)
  {
    hide ReadFrom, Placed, Valued, Visited, CallsOfNodes;
    SuspensionInvisible(answers, limit, req, st);
    ps := ReadFromLaysOut(answers, limit, req, 0, Entry(st.(turns := [])));
  }

  // The identifier bytes say the identifier, high byte first.
  lemma {:induction false} IdBytesDecode(id: nat)
    requires id < 0x1_0000
    ensures Value(IdBytes(id)[0], 8) * 0x100 + Value(IdBytes(id)[1], 8) == id
  {
    hide ByteOfNat, Value;
    ByteOfNatValue(id / 256, 8);
    ByteOfNatValue(id % 256, 8);
    assert Power2(1) == 2 && Power2(2) == 4 && Power2(3) == 8 && Power2(4) == 16;
    assert Power2(5) == 32 && Power2(6) == 64 && Power2(7) == 128 && Power2(8) == 256;
  }

  lemma {:induction false} ByteOfNatValue(x: nat, n: nat)
    requires n <= 8
    ensures Value(ByteOfNat(x), n) == x % Power2(n)
  {
    if n == 0 {
      assert x % 1 == 0;
    } else {
      ByteOfNatValue(x, n - 1);
      OneMoreBit(x, Power2(n - 1));
    }
  }

  lemma {:induction false} OneMoreBit(x: nat, p: nat)
    requires p >= 1
    ensures x % (2 * p) == (if x / p % 2 == 1 then p else 0) + x % p
  {
    var h, b := x / p / 2, x / p % 2;
    assert x == x / p * p + x % p;
    Distribute(h, b, p);
    Remainder(x, 2 * p, h, (if b == 1 then p else 0) + x % p);
  }

  lemma {:induction false} Distribute(h: nat, b: nat, p: nat)
    requires b <= 1
    ensures (2 * h + b) * p == h * (2 * p) + if b == 1 then p else 0
  {
  }

  lemma {:induction false} Remainder(x: nat, d: nat, q: nat, r: nat)
    requires d > 0 && x == q * d + r && r < d
    ensures x % d == r
  {
    var k := x / d - q;
    assert x == x / d * d + x % d;
    assert k * d == x / d * d - q * d;
    if k >= 1 { AtLeast(k, d); }
    if k <= -1 { AtLeast(-k, d); }
  }

  lemma {:induction false} AtLeast(k: int, d: nat)
    requires k >= 1
    ensures k * d >= d && (-k) * d == -(k * d)
  {
  }
}
