/** What a ReadDataByIdentifier request is refused with. */
module ReadDidRefusals {
  import opened Bits
  import opened Prelude
  import opened SRSignal
  import opened ReadDid

  predicate Wellformed(bytes: seq<nat>) { |bytes| >= 3 && |bytes| % 2 == 1 }

  // The i-th requested identifier, high byte first.
  function Named(bytes: seq<nat>, i: nat): nat
    requires Wellformed(bytes) && 2 + 2 * i < |bytes|
  {
    bytes[1 + 2 * i] * 0x100 + bytes[2 + 2 * i]
  }

  // However often it is suspended, a request ends as the direct call does.
  lemma {:induction false} EndsAsDirect(answers: nat -> Answer, limit: nat, req: Request, st: St)
    requires limit <= |st.buf| && st.phase.Idle? && req.LengthOk()
    ensures var r := ReadFrom(answers, limit, req, 0, 0, Entry(st.(turns := [])));
            Serve(answers, limit, req, st).code == if NoneSupported(req, 0) then RequestOutOfRange else r.code
  {
    hide ReadFrom;
    SuspensionInvisible(answers, limit, req, st);
  }

  lemma {:induction false} Malformed(answers: nat -> Answer, limit: nat, req: Request, st: St)
    requires limit <= |st.buf| && st.phase.Idle?
    ensures Serve(answers, limit, req, st).code == IncorrectLength <== !Wellformed(req.bytes)
    ensures Wellformed(req.bytes)
            && (forall i | 0 <= i && 2 + 2 * i < |req.bytes| :: Named(req.bytes, i) !in req.lookup) ==>
              Serve(answers, limit, req, st).code == RequestOutOfRange
  {
    hide ReadFrom;
    if Wellformed(req.bytes) {
      EndsAsDirect(answers, limit, req, st);
      forall i | 0 <= i < req.Count() ensures req.Id(i) == Named(req.bytes, i) {}
    }
  }

  // The first requested DID, if it is one of those that are configured, decides unless it succeeds.
  lemma {:induction false} FirstDidDecides(answers: nat -> Answer, limit: nat, req: Request, st: St)
    requires limit <= |st.buf| && st.phase.Idle? && Wellformed(req.bytes) && Named(req.bytes, 0) in req.lookup
    ensures var n := Node(answers, limit, req.lookup[Named(req.bytes, 0)], 0, Entry(st.(turns := [])));
            !n.code.Positive? ==> Serve(answers, limit, req, st).code == n.code
  {
    hide Node;
    assert req.Id(0) == Named(req.bytes, 0) && req.Supported(0) && req.Count() >= 1;
    EndsAsDirect(answers, limit, req, st);
    var did := req.lookup[Named(req.bytes, 0)];
    assert req.Nodes(0)[0] == did;
  }

  lemma {:induction false} FirstDidRefused(answers: nat -> Answer, limit: nat, req: Request, st: St)
    requires 1 <= limit <= |st.buf| && st.phase.Idle? && Wellformed(req.bytes) && Named(req.bytes, 0) in req.lookup
    ensures var did, code := req.lookup[Named(req.bytes, 0)], Serve(answers, limit, req, st).code;
            && (did.access.NotConfigured? || did.access.NotInSession? ==> code == RequestOutOfRange)
            && (did.access.SecurityLocked? ==> code == SecurityAccessDenied)
            && (did.access.Readable? && 3 + (if did.onlyRefs then 0 else did.size) > limit ==> code == ResponseTooLong)
  {
    hide ReadSignals, Serve;
    FirstDidDecides(answers, limit, req, st);
  }

  // A DID that only refers to others needs room for its identifier, and no more; asked for alone, and
  // referring to none, it is answered exactly if there is that room.
  lemma {:induction false} LoneReference(answers: nat -> Answer, limit: nat, req: Request, st: St)
    requires 1 <= limit <= |st.buf| && st.phase.Idle? && |req.bytes| == 3 && Named(req.bytes, 0) in req.lookup
    requires var did := req.lookup[Named(req.bytes, 0)]; did.access.Readable? && did.onlyRefs && did.refs == []
    ensures Serve(answers, limit, req, st).code == if limit >= 3 then Positive else ResponseTooLong
  {
    hide Serve, Write;
    assert req.Id(0) == Named(req.bytes, 0) && req.Supported(0) && req.Count() == 1;
    EndsAsDirect(answers, limit, req, st);
    var did := req.lookup[Named(req.bytes, 0)];
    assert req.Nodes(0) == [did] by { assert PreorderOfRefs(did, 0) == []; }
    hide Preorder;
    var entry := Entry(st.(turns := []));
    var n := Node(answers, limit, did, 0, entry);
    assert Walk(answers, limit, [did], 0, entry).code == n.code by {
      if n.code.Positive? { assert Walk(answers, limit, [], 0, n.st).code.Positive?; }
    }
  }
}
