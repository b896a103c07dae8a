/** The table of periodic DIDs as the program keeps it: a fixed array edited in place. */
module PeriodicTable {
  import opened PeriodicDid
  import opened Prelude

  const BLANK := Entry(0, 0, 0, 0)

  class PDidTable {
    const entries: array<Entry>
    var used: nat
    var next: nat

    ghost predicate Valid()
      reads this
    {
      used <= entries.Length
    }

    ghost function State(): Table
      reads this, entries
      requires Valid()
    {
      Table(entries[..used], next)
    }

    constructor (limit: nat)
      ensures Valid() && fresh(entries) && entries.Length == limit && State() == Table([], 0)
    {
      entries := new Entry[limit](_ => BLANK);
      used, next := 0, 0;
    }

    // checkPeriodicIdentifierBuffer.
    method Position(did: byte, pdu: nat) returns (at: Option<nat>)
      requires Valid()
      ensures at == Find(entries[..used], did, pdu)
    {
      var i := 0;
      while i < used
        invariant i <= used
        invariant Find(entries[..used], did, pdu) == Find(entries[..used], did, pdu, i)
      {
        if entries[i].did == did && entries[i].pdu == pdu { return Some(i); }
        i := i + 1;
      }
      at := None;
    }

    method RemoveEntry(did: byte, pdu: nat)
      requires Valid()
      modifies this, entries
      ensures Valid() && State() == Remove(old(State()), did, pdu)
    {
      ghost var before := entries[..used];
      var at := Position(did, pdu);
      if at.Some? {
        used := used - 1;
        entries[at.value] := entries[used];
        entries[used] := BLANK;
        if next >= used { next := 0; }
        assert entries[..used] == before[at.value := before[used]][..used];
      }
    }

    method RemoveEntries(pairs: seq<(byte, nat)>)
      requires Valid()
      modifies this, entries
      ensures Valid() && State() == RemoveAll(old(State()), pairs, |pairs|)
    {
      var i := 0;
      while i < |pairs|
        invariant i <= |pairs| && Valid() && State() == RemoveAll(old(State()), pairs, i)
      {
        RemoveEntry(pairs[i].0, pairs[i].1);
        i := i + 1;
      }
    }

    method Clear()
      modifies this, entries
      ensures Valid() && State() == Table([], 0)
    {
      used, next := 0, 0;
      forall i | 0 <= i < entries.Length { entries[i] := BLANK; }
    }

    method Enter(did: byte, pdu: nat, period: nat) returns (status: Status)
      requires Valid()
      modifies this, entries
      ensures Valid() && Edit(State(), status) == AddOrUpdate(entries.Length, old(State()), did, pdu, period)
    {
      ghost var before := entries[..used];
      status := Full;
      var at := Position(did, pdu);
      if at.Some? {
        if period != 0 {
          entries[at.value] := entries[at.value].(period := period, counter := 0);
          assert entries[..used] == before[at.value := entries[at.value]];
        }
        status := Updated;
      } else if used < entries.Length {
        entries[used] := Entry(did, pdu, period, 0);
        used := used + 1;
        assert entries[..used] == before + [Entry(did, pdu, period, 0)];
        status := Added;
      }
    }

    // DspStopPeriodicDids.
    method Stop(check: bool, serviceSupported: bool, supported: byte -> bool)
      requires Valid()
      modifies this, entries
      ensures Valid() && State() == StopPeriodicDids(old(State()), check, serviceSupported, supported)
    {
      if check && serviceSupported {
        var gone: seq<(byte, nat)> := [];
        var i := 0;
        while i < used
          invariant i <= used && Valid() && State() == old(State())
          invariant gone == Unsupported(entries[..used], supported, i)
        {
          if !supported(entries[i].did) { gone := gone + [(entries[i].did, entries[i].pdu)]; }
          i := i + 1;
        }
        RemoveEntries(gone);
      } else {
        Clear();
      }
    }

    // The DIDs of a request, one after the other, until the table runs full.
    method EnterAll(env: Env, dids: seq<byte>, pdu: nat, period: nat)
      returns (anySupported: bool, anyAccess: bool, anyOk: bool)
      requires Valid() && env.limit == entries.Length
      modifies this, entries
      ensures Valid()
      ensures var w := Process(env, old(State()), dids, pdu, period, |dids|);
              State() == w.t && anySupported == w.anySupported && anyAccess == w.anyAccess && anyOk == w.anyOk
    {
      hide AddOrUpdate;
      anySupported, anyAccess, anyOk := false, false, false;
      var added: seq<(byte, nat)> := [];
      var full := false;
      var i := 0;
      while i < |dids| && !full
        invariant i <= |dids| && Valid()
        invariant Process(env, old(State()), dids, pdu, period, i)
                  == Work(State(), added, anySupported, anyAccess, anyOk, full)
        decreases |dids| - i
      {
        var did := dids[i];
        var support := env.support(did);
        if !support.Unknown? {
          anySupported := true;
          anyAccess := anyAccess || !support.Denied?;
          if support.Readable? && support.length <= env.maxLength {
            anyOk := true;
            var status := Enter(did, pdu, period);
            if status.Added? {
              added := added + [(did, pdu)];
            } else if status.Full? {
              RemoveEntries(added);
              full := true;
              anyOk := false;
            }
          }
        }
        i := i + 1;
      }
      StaysFull(env, old(State()), dids, pdu, period, i, |dids|);
    }

    method StartSending(env: Env, dids: seq<byte>, pdu: nat, period: nat, internal: bool, readOk: bool)
      returns (code: Code)
      requires Valid() && env.limit == entries.Length && |dids| >= 1
      modifies this, entries
      ensures Valid()
      ensures Response(State(), code) == Transmit(env, old(State()), dids, pdu, period, internal, readOk)
    {
      hide Process, Remove;
      var anySupported, anyAccess, anyOk := EnterAll(env, dids, pdu, period);
      if anyOk {
        code := Positive;
        if internal && !readOk {
          RemoveEntry(dids[|dids| - 1], pdu);
          code := ReadFailed;
        }
      } else {
        code := if anySupported && !anyAccess then SecurityAccessDenied else RequestOutOfRange;
      }
    }

    // DspReadDataByPeriodicIdentifier.
    method Serve(env: Env, data: seq<byte>, pdu: nat, internal: bool, readOk: bool) returns (code: Code)
      requires Valid() && env.limit == entries.Length
      modifies this, entries
      ensures Valid()
      ensures Response(State(), code) == ReadDataByPeriodicIdentifier(env, old(State()), data, pdu, internal, readOk)
    {
      hide Transmit, RemoveAll, Pairs;
      if |data| > 2 {
        var dids := data[2..];
        if data[1] == 4 {
          RemoveEntries(Pairs(dids, pdu));
          return Positive;
        }
        if data[1] > 4 || (data[1] == 0 && !internal) { return RequestOutOfRange; }
        var period := if data[1] == 0 then 0 else if data[1] == 1 then env.slow else if data[1] == 2 then env.medium
          else env.fast;
        code := StartSending(env, dids, pdu, period, internal, readOk);
      } else if |data| == 2 && data[1] == 4 {
        Clear();
        code := Positive;
      } else {
        code := IncorrectLength;
      }
    }

    // One entry of the round. free: nothing has been sent in this round yet.
    method ServeEntry(at: nat, free: bool, accepted: bool) returns (sends: bool)
      requires Valid() && at < used
      modifies entries
      ensures sends <==> free && accepted && Due(Tick(old(entries[at])))
      ensures entries[..used] == old(entries[..used])[at := Served(old(entries[at]), sends)]
    {
      if entries[at].period > entries[at].counter {
        entries[at] := entries[at].(counter := entries[at].counter + 1);
      }
      sends := entries[at].period <= entries[at].counter && free && accepted;
      if sends { entries[at] := entries[at].(counter := 0); }
    }

    method StartIndex() returns (r: nat)
      requires Valid() && next < used
      ensures r == next
    {
      r := next % used;
    }

    method Advance(at: nat) returns (r: nat)
      requires Valid() && at < used
      ensures r == Succ(at, used)
    {
      r := (at + 1) % used;
    }

    // DspPeriodicDIDMainFunction. accepted: whether the DSL takes the DID tried at each turn.
    method Schedule(accepted: seq<bool>) returns (sent: Option<nat>)
      requires Valid() && StartOk(State()) && |accepted| == used
      modifies this`next, entries
      ensures Valid() && Round(State(), sent) == MainFunction(old(State()), accepted)
    {
      hide InRound, Due, Tick, Served, MainFunction, Succ, FirstSent, Turn, AtTurn;
      ghost var before := State();
      sent := None;
      var at: nat := next;
      if used == 0 { assert MainFunction(before, accepted) == Round(before,
        None) by { EmptyRound(before, accepted); } return; }
      next := StartIndex();
      RoundStarts(before, accepted);
      var i: nat := 0;
      while i < used
        invariant i <= used && at < used && Valid()
        invariant InRound(before, accepted, State(), at, i, sent)
      {
        RoundStep(before, accepted, State(), at, i, sent);
        var sends := ServeEntry(at, sent.None?, accepted[i]);
        if sends {
          sent := Some(at);
          next := Advance(at);
        }
        at := Advance(at);
        i := i + 1;
      }
      RoundEnds(before, accepted, State(), at, sent);
    }
  }

  // The table after the first i turns of a round, with the entry of the next turn at hand.
  ghost predicate InRound(before: Table, accepted: seq<bool>, t: Table, at: nat, i: nat, sent: Option<nat>) {
    var n := |before.entries|;
    && before.next < n == |accepted| == |t.entries| && i <= n
    && at == (if i < n then AtTurn(before.next, i, n) else before.next)
    && (sent.None? ==> t.next == before.next
                       && forall k | 0 <= k < i ::
                         !(Due(Tick(before.entries[AtTurn(before.next, k, n)])) && accepted[k]))
    && (sent.Some? ==> sent.value < n && t.next == Succ(sent.value, n)
                       && Turn(before.next, sent.value, n) == FirstSent(before, accepted, 0) < i)
    && forall j | 0 <= j < n ::
         t.entries[j] == if Turn(before.next, j, n) < i then Served(before.entries[j], sent == Some(j))
           else before.entries[j]
  }

  lemma {:induction false} EmptyRound(t: Table, accepted: seq<bool>)
    requires StartOk(t) && t.entries == [] && accepted == []
    ensures MainFunction(t, accepted) == Round(t, None)
  {
  }

  lemma {:induction false} RoundStarts(t: Table, accepted: seq<bool>)
    requires t.next < |t.entries| == |accepted|
    ensures InRound(t, accepted, t, t.next, 0, None)
  {
  }

  lemma {:induction false} RoundStep(before: Table, accepted: seq<bool>, t: Table, at: nat, i: nat, sent: Option<nat>)
    requires i < |before.entries| && InRound(before, accepted, t, at, i, sent)
    ensures at < |t.entries|
    ensures var sends := sent.None? && accepted[i] && Due(Tick(t.entries[at]));
            InRound(before, accepted,
                    Table(t.entries[at := Served(t.entries[at], sends)], if sends then Succ(at, |t.entries|)
                      else t.next),
                    Succ(at, |t.entries|), i + 1, if sends then Some(at) else sent)
  {
    hide Due, Tick, Served, FirstSent, Succ, Turn, AtTurn;
    var n := |before.entries|;
    Turns(before.next, i, n);
    if sent.None? && accepted[i] && Due(Tick(t.entries[at])) { FirstIs(before, accepted, i); }
  }

  lemma {:induction false} Turns(start: nat, i: nat, n: nat)
    requires start < n && i < n
    ensures var at := AtTurn(start, i, n);
            && Succ(at, n) == (if i + 1 < n then AtTurn(start, i + 1, n) else start)
            && forall j | 0 <= j < n :: Turn(start, j, n) == i <==> j == at
  {
  }

  lemma {:induction false} EntryAfterRound(t: Table, accepted: seq<bool>, j: nat)
    requires StartOk(t) && j < |t.entries| == |accepted|
    ensures var r := MainFunction(t, accepted); r.t.entries[j] == Served(t.entries[j], r.sent == Some(j))
  {
    hide Served, FirstSent, AtTurn;
  }

  lemma {:induction false} RoundEnds(before: Table, accepted: seq<bool>, t: Table, at: nat, sent: Option<nat>)
    requires InRound(before, accepted, t, at, |before.entries|, sent)
    ensures MainFunction(before, accepted) == Round(t, sent)
  {
    hide Due, Tick, Served, FirstSent;
    var n := |before.entries|;
    if sent.None? {
      FirstIs(before, accepted, n);
    } else {
      assert AtTurn(before.next, Turn(before.next, sent.value, n), n) == sent.value;
    }
    var r := MainFunction(before, accepted);
    assert r.sent == sent && r.t.next == t.next;
    hide MainFunction, AtTurn, Turn;
    forall j | 0 <= j < n ensures r.t.entries[j] == t.entries[j] {
      EntryAfterRound(before, accepted, j);
      assert Turn(before.next, j, n) < n;
    }
  }

  lemma {:induction false} StaysFull(env: Env, t: Table, dids: seq<byte>, pdu: nat, period: nat, n: nat, m: nat)
    requires n <= m <= |dids|
    ensures Process(env, t, dids, pdu, period, n).full || n == m ==>
              Process(env, t, dids, pdu, period, m) == Process(env, t, dids, pdu, period, n)
    decreases m
  {
    hide ProcessOne;
    if n < m { StaysFull(env, t, dids, pdu, period, n, m - 1); }
  }

  lemma {:induction false} FirstIs(t: Table, accepted: seq<bool>, i: nat)
    requires t.next < |t.entries| == |accepted| && i <= |accepted|
    requires forall k | 0 <= k < i :: !(Due(Tick(t.entries[AtTurn(t.next, k, |accepted|)])) && accepted[k])
    requires i < |accepted| ==> Due(Tick(t.entries[AtTurn(t.next, i, |accepted|)])) && accepted[i]
    ensures FirstSent(t, accepted, 0) == i
  {
    hide Due, Tick, AtTurn;
  }
}
