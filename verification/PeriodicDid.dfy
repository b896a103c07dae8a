/** ReadDataByPeriodicIdentifier (section 10.5 of ISO 14229-1:2013): the table of periodic DIDs,
    the requests that edit it, and the round-robin scheduler that sends from it. */
module PeriodicDid {
  import opened Prelude

  // counter: main-function calls since the entry was last sent, up to the period.
  datatype Entry = Entry(did: byte, pdu: nat, period: nat, counter: nat)

  datatype Table = Table(entries: seq<Entry>, next: nat)

  predicate Is(e: Entry, did: byte, pdu: nat) { e.did == did && e.pdu == pdu }

  predicate Holds(es: seq<Entry>, did: byte, pdu: nat) { exists e :: e in es && Is(e, did, pdu) }

  ghost predicate Unique(es: seq<Entry>) {
    forall i, j | 0 <= i < j < |es| :: !Is(es[i], es[j].did, es[j].pdu)
  }

  // The scheduler starts at next; it reads that entry before it checks the index.
  predicate StartOk(t: Table) { t.next < |t.entries| || t.next == 0 }

  ghost predicate Wf(t: Table) { Unique(t.entries) && StartOk(t) }

  // ---------- The table ----------

  function Find(es: seq<Entry>, did: byte, pdu: nat, from: nat := 0): (r: Option<nat>)
    requires from <= |es|
    ensures r.Some? ==> from <= r.value < |es| && Is(es[r.value], did, pdu)
    ensures r.None? <==> !Holds(es[from..], did, pdu)
    decreases |es| - from
  {
    if from == |es| then None
    else if Is(es[from], did, pdu) then assert es[from] in es[from..]; Some(from)
    else assert es[from..] == [es[from]] + es[from + 1..]; Find(es, did, pdu, from + 1)
  }

  // The last entry takes the place of the removed one.
  function Remove(t: Table, did: byte, pdu: nat): (r: Table)
    ensures |r.entries| <= |t.entries|
  {
    match Find(t.entries, did, pdu)
    case None => t
    case Some(i) =>
      var last := |t.entries| - 1;
      Table(t.entries[i := t.entries[last]][..last], if t.next >= last then 0 else t.next)
  }

  function RemoveAll(t: Table, pairs: seq<(byte, nat)>, n: nat): (r: Table)
    requires n <= |pairs|
    ensures |r.entries| <= |t.entries|
  {
    if n == 0 then t else var before := RemoveAll(t, pairs, n - 1); Remove(before, pairs[n - 1].0, pairs[n - 1].1)
  }

  datatype Status = Full | Added | Updated

  datatype Edit = Edit(t: Table, status: Status)

  function AddOrUpdate(limit: nat, t: Table, did: byte, pdu: nat, period: nat): (r: Edit) {
    match Find(t.entries, did, pdu)
    case Some(i) =>
      var asked := t.(entries := t.entries[i := t.entries[i].(period := period, counter := 0)]);
      Edit(if period != 0 then asked else t, Updated)
    case None =>
      if |t.entries| < limit then Edit(t.(entries := t.entries + [Entry(did, pdu, period, 0)]), Added)
      else Edit(t, Full)
  }

  lemma {:induction false} RemoveKeepsOthers(t: Table, did: byte, pdu: nat)
    requires Wf(t)
    ensures var r := Remove(t, did, pdu);
            && Wf(r)
            && (forall e :: e in r.entries <==> e in t.entries && !Is(e, did, pdu))
            && |r.entries| == |t.entries| - if Holds(t.entries, did, pdu) then 1 else 0
  {
    var r := Remove(t, did, pdu);
    var es := t.entries;
    assert es[0..] == es;
    match Find(es, did, pdu)
    case None =>
    case Some(i) =>
      var last := |es| - 1;
      assert es[i] in es;
      forall e ensures e in r.entries <==> e in es && !Is(e, did, pdu) {
        if e in es && !Is(e, did, pdu) {
          var k :| 0 <= k < |es| && es[k] == e;
          assert r.entries[if k == last then i else k] == e;
        }
      }
  }

  lemma {:induction false} RemoveAllKeepsOthers(t: Table, pairs: seq<(byte, nat)>, n: nat)
    requires Wf(t) && n <= |pairs|
    ensures var r := RemoveAll(t, pairs, n);
            Wf(r) && forall e :: e in r.entries <==> e in t.entries && (e.did, e.pdu) !in pairs[..n]
  {
    if n > 0 {
      hide Remove, Unique, Is, Wf;
      var before := RemoveAll(t, pairs, n - 1);
      var did, pdu := pairs[n - 1].0, pairs[n - 1].1;
      assert RemoveAll(t, pairs, n) == Remove(before, did, pdu);
      hide RemoveAll;
      RemoveAllKeepsOthers(t, pairs, n - 1);
      RemoveKeepsOthers(before, did, pdu);
      forall e ensures e in Remove(before, did, pdu).entries <==> e in t.entries && (e.did, e.pdu) !in pairs[..n] {
        SameKey(e, did, pdu);
        InOneMore(pairs, n, (e.did, e.pdu));
      }
    }
  }

  lemma {:induction false} InOneMore(pairs: seq<(byte, nat)>, n: nat, p: (byte, nat))
    requires 0 < n <= |pairs|
    ensures p in pairs[..n] <==> p in pairs[..n - 1] || p == pairs[n - 1]
  {
    assert pairs[..n] == pairs[..n - 1] + [pairs[n - 1]];
  }

  lemma {:induction false} SameKey(e: Entry, did: byte, pdu: nat)
    ensures Is(e, did, pdu) <==> (e.did, e.pdu) == (did, pdu)
  {
  }

  // What an entry of the pair (did, pdu) looks like after it was asked for with this period.
  predicate Refreshed(es: seq<Entry>, e: Entry, period: nat) {
    if period == 0 && Holds(es, e.did, e.pdu) then e in es else e.period == period && e.counter == 0
  }

  lemma {:induction false} AddOrUpdateKeepsOthers(limit: nat, t: Table, did: byte, pdu: nat, period: nat)
    requires Wf(t) && |t.entries| <= limit
    ensures var r := AddOrUpdate(limit, t, did, pdu, period);
            && Wf(r.t) && |r.t.entries| <= limit
            && (r.status.Full? <==> |t.entries| == limit && !Holds(t.entries, did, pdu))
            && (r.status.Updated? <==> Holds(t.entries, did, pdu))
            && (r.status.Full? ==> r.t == t)
            && |r.t.entries| == |t.entries| + (if r.status.Added? then 1 else 0)
            && (!r.status.Full? ==>
                  forall e :: e in r.t.entries <==>
                                if Is(e, did, pdu) then Refreshed(t.entries, e, period) else e in t.entries)
  {
    var es := t.entries;
    assert es[0..] == es;
    var r := AddOrUpdate(limit, t, did, pdu, period).t.entries;
    match Find(es, did, pdu)
    case None =>
    case Some(i) =>
      assert es[i] in es;
      forall e ensures e in r <==> if Is(e, did, pdu) then Refreshed(es, e, period) else e in es {
        if Is(e, did, pdu) && Refreshed(es, e, period) && period != 0 {
          assert r[i] == e;
        } else if !Is(e, did, pdu) && e in es {
          var k :| 0 <= k < |es| && es[k] == e;
          assert r[k] == e;
        }
      }
  }

  // ---------- DspStopPeriodicDids ----------

  function Unsupported(es: seq<Entry>, supported: byte -> bool, n: nat): (ps: seq<(byte, nat)>)
    requires n <= |es|
    ensures forall p :: p in ps <==> exists e :: e in es[..n] && (e.did, e.pdu) == p && !supported(e.did)
  {
    if n == 0 then []
    else
      assert es[..n] == es[..n - 1] + [es[n - 1]];
      var before := Unsupported(es, supported, n - 1);
      if supported(es[n - 1].did) then before else before + [(es[n - 1].did, es[n - 1].pdu)]
  }

  // check: whether session and security level decide; otherwise everything goes.
  function StopPeriodicDids(t: Table, check: bool, serviceSupported: bool, supported: byte -> bool): Table {
    if check && serviceSupported then
      var gone := Unsupported(t.entries, supported, |t.entries|);
      RemoveAll(t, gone, |gone|)
    else Table([], 0)
  }

  // Exactly the entries that are still supported are kept, as they were.
  lemma {:induction false} StopKeepsTheSupported(t: Table, serviceSupported: bool, supported: byte -> bool)
    requires Wf(t)
    ensures var r := StopPeriodicDids(t, true, serviceSupported, supported);
            && Wf(r)
            && (serviceSupported ==> forall e :: e in r.entries <==> e in t.entries && supported(e.did))
            && (!serviceSupported ==> r.entries == [])
            && StopPeriodicDids(t, false, serviceSupported, supported) == Table([], 0)
  {
    var gone := Unsupported(t.entries, supported, |t.entries|);
    RemoveAllKeepsOthers(t, gone, |gone|);
    assert gone[..|gone|] == gone && t.entries[..|t.entries|] == t.entries;
  }

  // ---------- The service ----------

  datatype Support = Unknown | OutOfRange | Denied | Readable(length: nat)

  // What the service asks its surroundings: the DIDs of the current session and security
  // level, the room in the response frame, and the periods of the three rates.
  datatype Env = Env(limit: nat, support: byte -> Support, maxLength: nat, slow: nat, medium: nat, fast: nat)

  datatype Code = Positive | RequestOutOfRange | SecurityAccessDenied | IncorrectLength | ReadFailed

  predicate Usable(env: Env, did: byte) {
    env.support(did).Readable? && env.support(did).length <= env.maxLength
  }

  // added: the DIDs this request put into the table.
  datatype Work = Work(t: Table, added: seq<(byte, nat)>, anySupported: bool, anyAccess: bool, anyOk: bool, full: bool)

  function ProcessOne(env: Env, w: Work, did: byte, pdu: nat, period: nat): Work {
    var s := env.support(did);
    if s.Unknown? then w
    else
      var seen := w.(anySupported := true, anyAccess := w.anyAccess || !s.Denied?);
      if !Usable(env, did) then seen
      else
        var r := AddOrUpdate(env.limit, w.t, did, pdu, period);
        match r.status
        case Added => seen.(t := r.t, anyOk := true, added := w.added + [(did, pdu)])
        case Updated => seen.(t := r.t, anyOk := true)
        case Full => seen.(t := RemoveAll(r.t, w.added, |w.added|), anyOk := false, full := true)
  }

  // The first n DIDs of the request; none after the table has run full.
  function Process(env: Env, t: Table, dids: seq<byte>, pdu: nat, period: nat, n: nat): Work
    requires n <= |dids|
  {
    if n == 0 then Work(t, [], false, false, false, false)
    else
      var w := Process(env, t, dids, pdu, period, n - 1);
      if w.full then w else ProcessOne(env, w, dids[n - 1], pdu, period)
  }

  datatype Response = Response(t: Table, code: Code)

  function Pairs(dids: seq<byte>, pdu: nat): (ps: seq<(byte, nat)>)
    ensures |ps| == |dids| && forall p :: p in ps <==> p.1 == pdu && p.0 in dids
  {
    if dids == [] then [] else [(dids[0], pdu)] + Pairs(dids[1..], pdu)
  }

  function StopSending(t: Table, dids: seq<byte>, pdu: nat): Table {
    RemoveAll(t, Pairs(dids, pdu), |dids|)
  }

  // Exactly the entries named in the request go.
  lemma {:induction false} StopRequest(env: Env, t: Table, data: seq<byte>, pdu: nat, internal: bool, readOk: bool)
    requires Wf(t) && |data| > 2 && data[1] == 4
    ensures var r := ReadDataByPeriodicIdentifier(env, t, data, pdu, internal, readOk);
            && Wf(r.t) && r.code == Positive
            && forall e :: e in r.t.entries <==> e in t.entries && !(e.pdu == pdu && e.did in data[2..])
  {
    hide RemoveAll;
    var ps := Pairs(data[2..], pdu);
    RemoveAllKeepsOthers(t, ps, |ps|);
    assert ps[..|ps|] == ps;
  }

  // readOk: whether the data of the DID can be read, for an internal request.
  function Transmit(env: Env, t: Table, dids: seq<byte>, pdu: nat, period: nat, internal: bool, readOk: bool): Response
    requires |dids| >= 1
  {
    var w := Process(env, t, dids, pdu, period, |dids|);
    if !w.anyOk then Response(w.t, if w.anySupported && !w.anyAccess then SecurityAccessDenied else RequestOutOfRange)
    else if internal && !readOk then Response(Remove(w.t, dids[|dids| - 1], pdu), ReadFailed)
    else Response(w.t, Positive)
  }

  // data: the request, with the service identifier in front.
  function ReadDataByPeriodicIdentifier(env: Env, t: Table, data: seq<byte>, pdu: nat, internal: bool,
                                        readOk: bool): Response {
    if |data| > 2 then
      var dids := data[2..];
      match data[1]
      case 0 => if internal then Transmit(env, t, dids, pdu, 0, internal, readOk) else Response(t, RequestOutOfRange)
      case 1 => Transmit(env, t, dids, pdu, env.slow, internal, readOk)
      case 2 => Transmit(env, t, dids, pdu, env.medium, internal, readOk)
      case 3 => Transmit(env, t, dids, pdu, env.fast, internal, readOk)
      case 4 => Response(StopSending(t, dids, pdu), Positive)
      case _ => Response(t, RequestOutOfRange)
    else if |data| == 2 && data[1] == 4 then Response(Table([], 0), Positive)
    else Response(t, IncorrectLength)
  }

  predicate Wanted(env: Env, dids: seq<byte>, n: nat, did: byte)
    requires n <= |dids|
  {
    did in dids[..n] && Usable(env, did)
  }

  ghost predicate Distinct(ps: seq<(byte, nat)>) { forall i, j | 0 <= i < j < |ps| :: ps[i] != ps[j] }

  // As long as the table has not run full: exactly the wanted entries are there, refreshed,
  // besides the old ones, and added lists the new pairs.
  ghost predicate Grown(env: Env, t: Table, dids: seq<byte>, pdu: nat, period: nat, n: nat, w: Work)
    requires n <= |dids|
  {
    && Wf(w.t) && |w.t.entries| == |t.entries| + |w.added| <= env.limit && Distinct(w.added)
    && (forall p :: p in w.added <==> p.1 == pdu && Wanted(env, dids, n, p.0) && !Holds(t.entries, p.0, pdu))
    && (forall e :: e in w.t.entries <==>
                      if e.pdu == pdu && Wanted(env, dids, n, e.did) then Refreshed(t.entries, e, period)
                        else e in t.entries)
  }

  ghost predicate SamePairs(a: seq<Entry>, b: seq<Entry>) {
    forall did, pdu :: Holds(a, did, pdu) <==> Holds(b, did, pdu)
  }

  lemma {:induction false} GrownStep(env: Env, t: Table, dids: seq<byte>, pdu: nat, period: nat, n: nat, w: Work)
    requires Wf(t) && 0 < n <= |dids| && Grown(env, t, dids, pdu, period, n - 1, w) && Usable(env, dids[n - 1])
    requires !AddOrUpdate(env.limit, w.t, dids[n - 1], pdu, period).status.Full?
    ensures var r := AddOrUpdate(env.limit, w.t, dids[n - 1], pdu, period);
            && Grown(env, t, dids, pdu, period, n,
                     w.(t := r.t, added := if r.status.Added? then w.added + [(dids[n - 1], pdu)] else w.added))
  {
    var did := dids[n - 1];
    var r := AddOrUpdate(env.limit, w.t, did, pdu, period);
    hide AddOrUpdate, Wf;
    AddOrUpdateKeepsOthers(env.limit, w.t, did, pdu, period);
    assert dids[..n] == dids[..n - 1] + [did];
    HoldsWhile(env, t, dids, pdu, period, n - 1, w, did);
    assert forall d :: Wanted(env, dids, n, d) <==> d == did || Wanted(env, dids, n - 1, d);
    forall e ensures e in r.t.entries <==>
                       if e.pdu == pdu && Wanted(env, dids, n, e.did) then Refreshed(t.entries, e, period)
                         else e in t.entries {
      if Is(e, did, pdu) { RefreshedAgain(env, t, dids, pdu, period, n - 1, w, e); }
    }
  }

  // Whether a pair is in the table after the first n DIDs.
  lemma {:induction false} HoldsWhile(env: Env, t: Table, dids: seq<byte>, pdu: nat, period: nat, n: nat, w: Work,
                                      did: byte)
    requires n <= |dids| && Grown(env, t, dids, pdu, period, n, w)
    ensures Holds(w.t.entries, did, pdu) <==> Holds(t.entries, did, pdu) || Wanted(env, dids, n, did)
  {
    if Wanted(env, dids, n, did) {
      if period == 0 && Holds(t.entries, did, pdu) {
        var e :| e in t.entries && Is(e, did, pdu);
        assert e in w.t.entries;
      } else {
        var e := Entry(did, pdu, period, 0);
        assert Refreshed(t.entries, e, period);
        assert e in w.t.entries && Is(e, did, pdu);
      }
    } else if Holds(t.entries, did, pdu) {
      var e :| e in t.entries && Is(e, did, pdu);
      assert e in w.t.entries;
    }
  }

  lemma {:induction false} RefreshedAgain(env: Env, t: Table, dids: seq<byte>, pdu: nat, period: nat, n: nat, w: Work,
                                          e: Entry)
    requires n <= |dids| && Grown(env, t, dids, pdu, period, n, w) && e.pdu == pdu
    ensures Refreshed(w.t.entries, e, period) <==> Refreshed(t.entries, e, period)
  {
    HoldsWhile(env, t, dids, pdu, period, n, w, e.did);
    if period == 0 && Holds(t.entries, e.did, pdu) {
    } else if period == 0 && Holds(w.t.entries, e.did, pdu) {
      assert e in w.t.entries <==> Refreshed(t.entries, e, period);
    }
  }

  // A table that has run full is rolled back: only the pairs this request added are removed.
  lemma {:induction false} RollBack(env: Env, t: Table, dids: seq<byte>, pdu: nat, period: nat, n: nat, w: Work)
    requires Wf(t) && n <= |dids| && Grown(env, t, dids, pdu, period, n, w)
    ensures var r := RemoveAll(w.t, w.added, |w.added|);
            Wf(r) && SamePairs(r.entries, t.entries)
  {
    var r := RemoveAll(w.t, w.added, |w.added|);
    RemoveAllKeepsOthers(w.t, w.added, |w.added|);
    assert w.added[..|w.added|] == w.added;
    hide RemoveAll, Grown;
    forall did, p ensures Holds(r.entries, did, p) <==> Holds(t.entries, did, p) {
      HoldsAfterRollBack(env, t, dids, pdu, period, n, w, r, did, p);
    }
  }

  lemma {:induction false} HoldsAfterRollBack(env: Env, t: Table, dids: seq<byte>, pdu: nat, period: nat, n: nat,
                                              w: Work, r: Table, did: byte, p: nat)
    requires n <= |dids| && Grown(env, t, dids, pdu, period, n, w)
    requires forall e :: e in r.entries <==> e in w.t.entries && (e.did, e.pdu) !in w.added
    ensures Holds(r.entries, did, p) <==> Holds(t.entries, did, p)
  {
    assert Holds(w.t.entries, did, p) <==> Holds(t.entries, did, p) || (p == pdu && Wanted(env, dids, n, did)) by {
      if p == pdu {
        HoldsWhile(env, t, dids, pdu, period, n, w, did);
      } else {
        assert forall e :: Is(e, did, p) ==> (e in w.t.entries <==> e in t.entries);
      }
    }
    if Holds(w.t.entries, did, p) && (did, p) !in w.added {
      var e :| e in w.t.entries && Is(e, did, p);
      assert e in r.entries;
    }
  }

  // The DIDs of the request that need an entry of their own.
  function NewDids(env: Env, t: Table, dids: seq<byte>, pdu: nat): set<byte> {
    set d | d in dids && Usable(env, d) && !Holds(t.entries, d, pdu)
  }

  function Keys(ps: seq<(byte, nat)>): set<byte> { set p | p in ps :: p.0 }

  lemma {:induction false} DistinctKeys(ps: seq<(byte, nat)>, pdu: nat)
    requires Distinct(ps) && forall p :: p in ps ==> p.1 == pdu
    ensures |Keys(ps)| == |ps|
  {
    if ps == [] {
      assert Keys(ps) == {};
    } else {
      var n := |ps| - 1;
      DistinctKeys(ps[..n], pdu);
      assert ps == ps[..n] + [ps[n]];
      assert ps[n].0 !in Keys(ps[..n]);
      assert Keys(ps) == Keys(ps[..n]) + {ps[n].0};
    }
  }

  lemma {:induction false} SubsetSize(a: set<byte>, b: set<byte>)
    requires a <= b
    ensures |a| <= |b|
  {
    assert b == a + (b - a);
  }

  lemma {:induction false} FullMeansTooMany(env: Env, t: Table, dids: seq<byte>, pdu: nat, period: nat, n: nat, w: Work)
    requires n < |dids| && Grown(env, t, dids, pdu, period, n, w) && |w.t.entries| == env.limit
    requires Usable(env, dids[n]) && !Holds(w.t.entries, dids[n], pdu)
    ensures |t.entries| + |NewDids(env, t, dids, pdu)| > env.limit
  {
    HoldsWhile(env, t, dids, pdu, period, n, w, dids[n]);
    DistinctKeys(w.added, pdu);
    assert dids[n] !in Keys(w.added);
    assert Keys(w.added) + {dids[n]} <= NewDids(env, t, dids, pdu);
    SubsetSize(Keys(w.added) + {dids[n]}, NewDids(env, t, dids, pdu));
  }

  lemma {:induction false} GrownMeansEnough(env: Env, t: Table, dids: seq<byte>, pdu: nat, period: nat, w: Work)
    requires Grown(env, t, dids, pdu, period, |dids|, w)
    ensures |t.entries| + |NewDids(env, t, dids, pdu)| <= env.limit
  {
    DistinctKeys(w.added, pdu);
    assert dids[..|dids|] == dids;
    forall d | d in NewDids(env, t, dids, pdu) ensures d in Keys(w.added) {
      assert (d, pdu) in w.added;
    }
    SubsetSize(NewDids(env, t, dids, pdu), Keys(w.added));
  }

  ghost predicate Any(dids: seq<byte>, p: byte -> bool) { exists d :: d in dids && p(d) }

  lemma {:induction false} AnySnoc(dids: seq<byte>, d: byte, p: byte -> bool)
    ensures Any(dids + [d], p) <==> Any(dids, p) || p(d)
  {
    assert d in dids + [d];
    assert forall x :: x in dids + [d] <==> x in dids || x == d;
  }

  // Before the table runs full: what was learned about the DIDs seen so far.
  ghost predicate Learned(env: Env, dids: seq<byte>, n: nat, w: Work)
    requires n <= |dids|
  {
    && (w.anyOk <==> Any(dids[..n], d => Usable(env, d)))
    && (w.anySupported <==> Any(dids[..n], d => !env.support(d).Unknown?))
    && (w.anyAccess <==> Any(dids[..n], d => !env.support(d).Unknown? && !env.support(d).Denied?))
  }

  lemma {:induction false} LearnedStep(env: Env, w: Work, dids: seq<byte>, pdu: nat, period: nat, n: nat)
    requires 0 < n <= |dids| && Learned(env, dids, n - 1, w) && !ProcessOne(env, w, dids[n - 1], pdu, period).full
    requires !w.full
    ensures Learned(env, dids, n, ProcessOne(env, w, dids[n - 1], pdu, period))
  {
    hide AddOrUpdate, RemoveAll;
    var d := dids[n - 1];
    assert dids[..n] == dids[..n - 1] + [d];
    AnySnoc(dids[..n - 1], d, x => Usable(env, x));
    AnySnoc(dids[..n - 1], d, x => !env.support(x).Unknown?);
    AnySnoc(dids[..n - 1], d, x => !env.support(x).Unknown? && !env.support(x).Denied?);
  }

  lemma {:induction false} ProcessGrows(env: Env, t: Table, dids: seq<byte>, pdu: nat, period: nat, n: nat)
    requires Wf(t) && |t.entries| <= env.limit && n <= |dids|
    ensures var w := Process(env, t, dids, pdu, period, n);
            && (!w.full ==> Grown(env, t, dids, pdu, period, n, w) && Learned(env, dids, n, w))
            && (w.full ==> RolledBack(env, t, dids, pdu, w))
  {
    hide ProcessOne, Grown, SamePairs, Learned, Wf, NewDids, RolledBack;
    if n == 0 {
      NothingYet(env, t, dids, pdu, period);
    } else {
      ProcessGrows(env, t, dids, pdu, period, n - 1);
      var w := Process(env, t, dids, pdu, period, n - 1);
      if !w.full {
        OneMore(env, t, dids, pdu, period, n, w);
        if !ProcessOne(env, w, dids[n - 1], pdu, period).full { LearnedStep(env, w, dids, pdu, period, n); }
      }
    }
  }

  ghost predicate RolledBack(env: Env, t: Table, dids: seq<byte>, pdu: nat, w: Work) {
    && Wf(w.t) && |w.t.entries| <= env.limit && SamePairs(w.t.entries, t.entries)
    && |t.entries| + |NewDids(env, t, dids, pdu)| > env.limit && !w.anyOk && w.anyAccess
  }

  lemma {:induction false} NothingYet(env: Env, t: Table, dids: seq<byte>, pdu: nat, period: nat)
    requires Wf(t) && |t.entries| <= env.limit
    ensures var w := Process(env, t, dids, pdu, period, 0);
            !w.full && Grown(env, t, dids, pdu, period, 0, w) && Learned(env, dids, 0, w)
  {
  }

  lemma {:induction false} OneMore(env: Env, t: Table, dids: seq<byte>, pdu: nat, period: nat, n: nat, w: Work)
    requires Wf(t) && 0 < n <= |dids| && Grown(env, t, dids, pdu, period, n - 1, w) && !w.full
    ensures var v := ProcessOne(env, w, dids[n - 1], pdu, period);
            && (!v.full ==> Grown(env, t, dids, pdu, period, n, v))
            && (v.full ==> RolledBack(env, t, dids, pdu, v))
  {
    var did := dids[n - 1];
    assert dids[..n] == dids[..n - 1] + [did];
    if !Usable(env, did) {
      assert forall d :: Wanted(env, dids, n, d) <==> Wanted(env, dids, n - 1, d);
    } else {
      assert Wf(w.t) && |w.t.entries| <= env.limit;
      var r := AddOrUpdate(env.limit, w.t, did, pdu, period);
      hide AddOrUpdate, RemoveAll, SamePairs, Wf, NewDids;
      AddOrUpdateKeepsOthers(env.limit, w.t, did, pdu, period);
      if r.status.Full? {
        RollBack(env, t, dids, pdu, period, n - 1, w);
        FullMeansTooMany(env, t, dids, pdu, period, n - 1, w);
      } else {
        GrownStep(env, t, dids, pdu, period, n, w);
        var added := if r.status.Added? then w.added + [(did, pdu)] else w.added;
        GrownIgnoresFlags(env, t, dids, pdu, period, n, w.(t := r.t, added := added),
          ProcessOne(env, w, did, pdu, period));
      }
    }
  }

  lemma {:induction false} GrownIgnoresFlags(env: Env, t: Table, dids: seq<byte>, pdu: nat, period: nat, n: nat,
                                             w: Work, v: Work)
    requires n <= |dids| && Grown(env, t, dids, pdu, period, n, w) && v.t == w.t && v.added == w.added
    ensures Grown(env, t, dids, pdu, period, n, v)
  {
  }

  // A transmission request from the tester, whole: it is refused, with the same pairs in the
  // table as before, exactly when it needs more new entries than there are free ones;
  // otherwise exactly the usable DIDs are in the table, refreshed, and nothing else changed.
  lemma {:induction false} TransmitRequest(env: Env, t: Table, dids: seq<byte>, pdu: nat, period: nat, readOk: bool)
    requires Wf(t) && |t.entries| <= env.limit && |dids| >= 1
    ensures var r := Transmit(env, t, dids, pdu, period, false, readOk);
            && Wf(r.t) && |r.t.entries| <= env.limit
            && (|t.entries| + |NewDids(env, t, dids, pdu)| > env.limit ==>
                  r.code == RequestOutOfRange && SamePairs(r.t.entries, t.entries))
            && (|t.entries| + |NewDids(env, t, dids, pdu)| <= env.limit ==>
                  && (forall e :: e in r.t.entries <==>
                                    if e.pdu == pdu && e.did in dids
                                      && Usable(env, e.did) then Refreshed(t.entries, e, period)
                                    else e in t.entries)
                  && (r.code == Positive <==> exists d :: d in dids && Usable(env, d))
                  && (r.code == SecurityAccessDenied <==>
                        (exists d :: d in dids && !env.support(d).Unknown?)
                        && (forall d :: d in dids && !env.support(d).Unknown? ==> env.support(d).Denied?))
                  && (r.code == Positive || r.code == SecurityAccessDenied || r.code == RequestOutOfRange))
  {
    hide Process, Wf, SamePairs, NewDids;
    ProcessGrows(env, t, dids, pdu, period, |dids|);
    var w := Process(env, t, dids, pdu, period, |dids|);
    assert dids[..|dids|] == dids;
    if !w.full {
      GrownMeansEnough(env, t, dids, pdu, period, w);
    }
  }

  // A tester's request from its first byte on: mode 1 sends at the slow, 2 at the medium, 3 at the
  // fast rate. The DIDs that can be read, and fit into a response frame, are entered; all of them, or,
  // if there is no room, none.
  lemma {:induction false} TesterRequest(env: Env, t: Table, data: seq<byte>, pdu: nat, readOk: bool)
    requires Wf(t) && |t.entries| <= env.limit && |data| > 2 && 1 <= data[1] <= 3
    ensures var r := ReadDataByPeriodicIdentifier(env, t, data, pdu, false, readOk);
            var rate := if data[1] == 1 then env.slow else if data[1] == 2 then env.medium else env.fast;
            var wanted := set d | d in data[2..] && env.support(d).Readable? && env.support(d).length <= env.maxLength;
            var extra := set d | d in wanted && !Holds(t.entries, d, pdu);
            if |t.entries| + |extra| > env.limit then
              r.code == RequestOutOfRange && SamePairs(r.t.entries, t.entries)
            else
              && (r.code == Positive <==> wanted != {})
              && forall e :: e in r.t.entries <==>
                               if e.pdu != pdu || e.did !in wanted then e in t.entries
                               else if rate == 0 && Holds(t.entries, e.did, pdu) then e in t.entries
                               else e.period == rate && e.counter == 0
  {
    var rate := if data[1] == 1 then env.slow else if data[1] == 2 then env.medium else env.fast;
    var dids := data[2..];
    var wanted := set d | d in dids && env.support(d).Readable? && env.support(d).length <= env.maxLength;
    TransmitRequest(env, t, dids, pdu, rate, readOk);
    assert NewDids(env, t, dids, pdu) == set d | d in wanted && !Holds(t.entries, d, pdu);
    assert forall d :: d in wanted <==> d in dids && Usable(env, d);
    hide Transmit, Wf, SamePairs, NewDids, Usable;
  }

  // Any other mode is refused, as is a request that names no DID; mode 4 without one ends all.
  lemma {:induction false} OtherRequests(env: Env, t: Table, data: seq<byte>, pdu: nat, readOk: bool)
    ensures var r := ReadDataByPeriodicIdentifier(env, t, data, pdu, false, readOk);
            && (|data| > 2 && !(1 <= data[1] <= 4) ==> r == Response(t, RequestOutOfRange))
            && (|data| < 2 || (|data| == 2 && data[1] != 4) ==> r == Response(t, IncorrectLength))
            && (|data| == 2 && data[1] == 4 ==> r.code == Positive && r.t.entries == [])
  {
    hide Transmit, StopSending;
  }

  // Every request leaves a table without duplicates, within its limit, with the scheduler's
  // start inside it.
  lemma {:induction false} EveryRequestKeepsWf(env: Env, t: Table, data: seq<byte>, pdu: nat, internal: bool,
                                               readOk: bool)
    requires Wf(t) && |t.entries| <= env.limit
    ensures var r := ReadDataByPeriodicIdentifier(env, t, data, pdu, internal, readOk).t;
            Wf(r) && |r.entries| <= env.limit
  {
    hide Process, Remove, RemoveAll, Wf;
    EmptyIsWf();
    if |data| > 2 {
      var dids := data[2..];
      RemoveAllKeepsOthers(t, Pairs(dids, pdu), |dids|);
      forall period {
        TransmitKeepsWf(env, t, dids, pdu, period, internal, readOk);
      }
    }
  }

  lemma {:induction false} EmptyIsWf()
    ensures Wf(Table([], 0))
  {
  }

  lemma {:induction false} TransmitKeepsWf(env: Env, t: Table, dids: seq<byte>, pdu: nat, period: nat, internal: bool,
                                           readOk: bool)
    requires Wf(t) && |t.entries| <= env.limit && |dids| >= 1
    ensures var r := Transmit(env, t, dids, pdu, period, internal, readOk).t;
            Wf(r) && |r.entries| <= env.limit
  {
    hide Process, Remove;
    ProcessGrows(env, t, dids, pdu, period, |dids|);
    RemoveKeepsOthers(Process(env, t, dids, pdu, period, |dids|).t, dids[|dids| - 1], pdu);
  }

  predicate PeriodsPositive(t: Table) { forall e :: e in t.entries ==> e.period >= 1 }

  // The request the scheduler makes for one DID, in one piece.
  lemma {:induction false} InternalOutcome(env: Env, t: Table, did: byte, pdu: nat, readOk: bool)
    ensures var r := ReadDataByPeriodicIdentifier(env, t, [0x2A, 0, did], pdu, true, readOk);
            var a := AddOrUpdate(env.limit, t, did, pdu, 0);
            if !Usable(env, did) || a.status.Full? then r.t == (if Usable(env, did) then a.t else t)
            else if readOk then r == Response(a.t, Positive)
            else r == Response(Remove(a.t, did, pdu), ReadFailed)
  {
    hide AddOrUpdate, Remove;
    var dids: seq<byte> := [did];
    assert [0x2A, 0, did][2..] == dids;
    var w0 := Process(env, t, dids, pdu, 0, 0);
    assert Process(env, t, dids, pdu, 0, 1) == ProcessOne(env, w0, did, pdu, 0);
    hide Process;
    var a := AddOrUpdate(env.limit, t, did, pdu, 0).t;
    assert RemoveAll(a, [], 0) == a;
  }

  lemma {:induction false} ZeroPeriodUpdatesNothing(limit: nat, t: Table, did: byte, pdu: nat)
    ensures Holds(t.entries, did, pdu) ==> AddOrUpdate(limit, t, did, pdu, 0).t == t
  {
    assert t.entries[0..] == t.entries;
  }

  // It can leave an entry that is due on every call behind, in exactly one case: the entry was
  // removed in between, the DID is still usable and readable, and there is room.
  lemma {:induction false} InternalRequest(env: Env, t: Table, did: byte, pdu: nat, readOk: bool)
    requires Wf(t) && |t.entries| <= env.limit && PeriodsPositive(t)
    ensures var r := ReadDataByPeriodicIdentifier(env, t, [0x2A, 0, did], pdu, true, readOk);
            && (PeriodsPositive(r.t)
              <==> Holds(t.entries, did, pdu) || !Usable(env, did) || |t.entries| == env.limit || !readOk)
            && (Holds(t.entries, did, pdu) && Usable(env, did) ==>
                  if readOk then r == Response(t, Positive)
                  else r.code == ReadFailed && forall e :: e in r.t.entries <==> e in t.entries && !Is(e, did, pdu))
  {
    hide ReadDataByPeriodicIdentifier, AddOrUpdate, Remove, Wf, Usable;
    InternalOutcome(env, t, did, pdu, readOk);
    ZeroPeriodUpdatesNothing(env.limit, t, did, pdu);
    AddOrUpdateKeepsOthers(env.limit, t, did, pdu, 0);
    var r := AddOrUpdate(env.limit, t, did, pdu, 0);
    RemoveKeepsOthers(r.t, did, pdu);
    if r.status.Added? { assert Entry(did, pdu, 0, 0) in r.t.entries; }
  }

  // ---------- The scheduler ----------

  function Tick(e: Entry): Entry { if e.period > e.counter then e.(counter := e.counter + 1) else e }

  predicate Due(e: Entry) { e.period <= e.counter }

  function Succ(i: nat, n: nat): (r: nat)
    requires i < n
    ensures r < n
  {
    if i + 1 == n then 0 else i + 1
  }

  // How many entries come before entry j in a round that starts at entry start.
  function Turn(start: nat, j: nat, n: nat): (r: nat)
    requires start < n && j < n
    ensures r < n
  {
    if j >= start then j - start else j + n - start
  }

  function AtTurn(start: nat, i: nat, n: nat): (j: nat)
    requires start < n && i < n
    ensures j < n && Turn(start, j, n) == i
  {
    if start + i < n then start + i else start + i - n
  }

  // The turn at which an entry is sent: the first that is due and accepted, n if none is.
  function FirstSent(t: Table, accepted: seq<bool>, i: nat): (r: nat)
    requires t.next < |t.entries| == |accepted| && i <= |accepted|
    ensures i <= r <= |accepted|
    ensures forall k | i <= k < r :: !(Due(Tick(t.entries[AtTurn(t.next, k, |accepted|)])) && accepted[k])
    ensures r < |accepted| ==> Due(Tick(t.entries[AtTurn(t.next, r, |accepted|)])) && accepted[r]
    decreases |accepted| - i
  {
    if i == |accepted| then i
    else if Due(Tick(t.entries[AtTurn(t.next, i, |accepted|)])) && accepted[i] then i
    else FirstSent(t, accepted, i + 1)
  }

  function Served(e: Entry, sent: bool): Entry { if sent then Tick(e).(counter := 0) else Tick(e) }

  datatype Round = Round(t: Table, sent: Option<nat>)

  // accepted: whether the DSL takes the DID that is tried at each turn.
  function MainFunction(t: Table, accepted: seq<bool>): (r: Round)
    requires StartOk(t) && |accepted| == |t.entries|
    ensures |r.t.entries| == |t.entries| && StartOk(r.t)
  {
    var n := |t.entries|;
    if n == 0 then Round(t, None)
    else
      var first := FirstSent(t, accepted, 0);
      var sent := if first < n then Some(AtTurn(t.next, first, n)) else None;
      Round(Table(seq(n, j requires 0 <= j < n => Served(t.entries[j], sent == Some(j))),
                  if sent.Some? then Succ(sent.value, n) else t.next), sent)
  }

  lemma {:induction false} MainKeepsWf(t: Table, accepted: seq<bool>)
    requires Wf(t) && |accepted| == |t.entries|
    ensures Wf(MainFunction(t, accepted).t)
  {
    hide MainFunction, Unique;
    forall i | 0 <= i < |t.entries|
      ensures var r := MainFunction(t, accepted).t;
              r.entries[i].did == t.entries[i].did && r.entries[i].pdu == t.entries[i].pdu
    {
      MainKeepsKey(t, accepted, i);
    }
    SameKeysUnique(MainFunction(t, accepted).t.entries, t.entries);
  }

  lemma {:induction false} MainKeepsKey(t: Table, accepted: seq<bool>, i: nat)
    requires StartOk(t) && |accepted| == |t.entries| && i < |t.entries|
    ensures var r := MainFunction(t, accepted).t;
            r.entries[i].did == t.entries[i].did && r.entries[i].pdu == t.entries[i].pdu
  {
    hide FirstSent, AtTurn;
  }

  // A counter runs up to its period and stops there; when its entry is sent it starts over.
  lemma {:induction false} CounterRuns(t: Table, accepted: seq<bool>, i: nat)
    requires StartOk(t) && |accepted| == |t.entries| && i < |t.entries|
    ensures var r, e := MainFunction(t, accepted), t.entries[i];
            && r.t.entries[i].period == e.period
            && r.t.entries[i].counter == (if r.sent == Some(i) then 0
                                          else if e.counter < e.period then e.counter + 1 else e.counter)
            && (r.sent == Some(i) ==> e.counter + 1 >= e.period)
  {
    hide FirstSent, AtTurn;
  }

  lemma {:induction false} SameKeysUnique(a: seq<Entry>, b: seq<Entry>)
    requires |a| == |b| && Unique(b) && forall i | 0 <= i < |a| :: a[i].did == b[i].did && a[i].pdu == b[i].pdu
    ensures Unique(a)
  {
  }

  // ---------- No entry starves ----------

  function AllAccepted(t: Table): (a: seq<bool>) { seq(|t.entries|, _ => true) }

  // The table after k calls, all sends accepted.
  function After(t: Table, k: nat): (r: Table)
    requires StartOk(t)
    ensures StartOk(r) && |r.entries| == |t.entries|
  {
    if k == 0 then t else var before := After(t, k - 1); MainFunction(before, AllAccepted(before)).t
  }

  // What the k-th call sends.
  function SentAt(t: Table, k: nat): (r: Option<nat>)
    requires StartOk(t) && k >= 1
    ensures r.Some? ==> r.value < |t.entries|
  {
    var before := After(t, k - 1);
    MainFunction(before, AllAccepted(before)).sent
  }

  // Calls after which entry e is due.
  function Wait(e: Entry): nat { if e.period > e.counter then e.period - e.counter else 0 }

  // One call, seen from entry e: when it is due, it is sent or its turn comes nearer; when it
  // is not, it is not sent and its wait shrinks.
  lemma {:induction false} OneRound(t: Table, e: nat)
    requires StartOk(t) && e < |t.entries|
    ensures var r := MainFunction(t, AllAccepted(t));
            var n := |t.entries|;
            && r.t.entries[e].period == t.entries[e].period
            && (r.sent == Some(e) ==> Wait(t.entries[e]) <= 1 && r.t.next == Succ(e, n) && r.t.entries[e].counter == 0)
            && (r.sent != Some(e) ==>
                  && r.t.entries[e] == Tick(t.entries[e])
                  && (Wait(t.entries[e]) <= 1 ==> Turn(r.t.next, e, n) < Turn(t.next, e, n)))
  {
    hide FirstSent;
    var accepted := AllAccepted(t);
    var first := FirstSent(t, accepted, 0);
    var mine := Turn(t.next, e, |t.entries|);
    assert AtTurn(t.next, mine, |t.entries|) == e;
    if Wait(t.entries[e]) <= 1 { assert first <= mine; }
  }

  // While its counter runs, an entry is not sent.
  lemma {:induction false} NotBeforeItsTime(t: Table, e: nat, k: nat)
    requires StartOk(t) && e < |t.entries| && k < AtLeastOne(Wait(t.entries[e]))
    ensures forall j | 1 <= j <= k :: SentAt(t, j) != Some(e)
    ensures After(t, k).entries[e].period == t.entries[e].period
    ensures k > 0 ==> After(t, k).entries[e].counter == t.entries[e].counter + k
  {
    hide MainFunction;
    if k > 0 {
      NotBeforeItsTime(t, e, k - 1);
      OneRound(After(t, k - 1), e);
    }
  }

  // Once due, it is sent within as many calls as its turn is away.
  lemma {:induction false} SentWithin(t: Table, e: nat, k: nat) returns (sent: nat)
    requires StartOk(t) && e < |t.entries| && Wait(After(t, k).entries[e]) <= 1
    requires forall j | 1 <= j <= k :: SentAt(t, j) != Some(e)
    ensures k < sent <= k + 1 + Turn(After(t, k).next, e, |t.entries|)
    ensures SentAt(t, sent) == Some(e)
    ensures forall j | 1 <= j < sent :: SentAt(t, j) != Some(e)
    decreases Turn(After(t, k).next, e, |t.entries|)
  {
    hide MainFunction, Turn;
    OneRound(After(t, k), e);
    if SentAt(t, k + 1) == Some(e) {
      sent := k + 1;
    } else {
      sent := SentWithin(t, e, k + 1);
    }
  }

  // From any table: no entry is sent before it is due, and each is sent within n calls of that.
  lemma {:induction false} NoEntryStarves(t: Table, e: nat) returns (sent: nat)
    requires StartOk(t) && e < |t.entries|
    ensures AtLeastOne(Wait(t.entries[e])) <= sent < AtLeastOne(Wait(t.entries[e])) + |t.entries|
    ensures SentAt(t, sent) == Some(e)
    ensures forall j | 1 <= j < sent :: SentAt(t, j) != Some(e)
  {
    var k := AtLeastOne(Wait(t.entries[e])) - 1;
    NotBeforeItsTime(t, e, k);
    sent := SentWithin(t, e, k);
  }

  lemma {:induction false} AfterAfter(t: Table, i: nat, k: nat)
    requires StartOk(t)
    ensures After(After(t, i), k) == After(t, i + k)
    ensures k >= 1 ==> SentAt(After(t, i), k) == SentAt(t, i + k)
  {
    hide MainFunction;
    if k > 0 { AfterAfter(t, i, k - 1); }
  }

  // Two consecutive sends of an entry with period P in a table of n entries are at least
  // max(1, P) and at most max(1, P) + n - 1 calls apart.
  lemma {:induction false} ConsecutiveSends(t: Table, e: nat, i: nat, j: nat)
    requires StartOk(t) && e < |t.entries| && 1 <= i < j
    ensures SentAt(t, i) == Some(e) && SentAt(t, j) == Some(e) && (forall k | i < k < j :: SentAt(t, k) != Some(e)) ==>
              var p := AtLeastOne(t.entries[e].period); p <= j - i <= p + |t.entries| - 1
  {
    hide MainFunction;
    PeriodsStay(t, e, i);
    OneRound(After(t, i - 1), e);
    var t' := After(t, i);
    var sent := NoEntryStarves(t', e);
    AfterAfter(t, i, sent);
    AfterAfter(t, i, j - i);
  }

  lemma {:induction false} PeriodsStay(t: Table, e: nat, k: nat)
    requires StartOk(t) && e < |t.entries|
    ensures After(t, k).entries[e].period == t.entries[e].period
  {
    hide MainFunction;
    if k > 0 {
      PeriodsStay(t, e, k - 1);
      OneRound(After(t, k - 1), e);
    }
  }
}
