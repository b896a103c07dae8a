/** The write-back of the DEM's memory blocks through the NvM: dirty and pending-write flags that
    may be set again while an earlier write is under way. */
module NvM {
  datatype State = Idle | SetRamBlockStatus | WriteBlock | WaitDone

  datatype Block = Block(state: State, dirty: bool, pendingWrite: bool)

  // What the NvM says in one call of the main function: whether its status can be asked, whether
  // a job is pending, and whether it takes a request.
  datatype Answer = Answer(statusOk: bool, busy: bool, accepts: bool)

  datatype Request = NoRequest | RamStatus | Write

  // ---------- One block ----------

  // hasBlock: whether an NvM block is configured for it.
  function Changed(b: Block, hasBlock: bool, immediate: bool): (r: Block)
    ensures !hasBlock ==> r == b
  {
    if hasBlock then b.(dirty := true, pendingWrite := b.pendingWrite || immediate) else b
  }

  predicate Free(a: Answer) { a.statusOk && !a.busy }

  // ramApi: NVM_SET_RAM_BLOCK_STATUS_API. The second component is the request the NvM has taken.
  function MainBlock(ramApi: bool, b: Block, a: Answer): (r: (Block, Request)) {
    var started :=
      if b.state.Idle? && (b.pendingWrite || b.dirty)
      then b.(state := if ramApi then SetRamBlockStatus else WriteBlock) else b;
    match started.state
    case Idle => (started, NoRequest)
    case SetRamBlockStatus =>
      if ramApi && Free(a) && a.accepts then
        (started.(dirty := false, state := if started.pendingWrite then WriteBlock else WaitDone), RamStatus)
      else (started, NoRequest)
    case WriteBlock => if Free(a) && a.accepts then (Block(WaitDone, false, false), Write) else (started, NoRequest)
    case WaitDone => if Free(a) then (started.(state := Idle), NoRequest) else (started, NoRequest)
  }

  // ---------- Runs ----------

  datatype Event = Change(immediate: bool) | Main(answer: Answer)

  function Step(ramApi: bool, b: Block, e: Event): Block {
    match e
    case Change(immediate) => Changed(b, true, immediate)
    case Main(a) => MainBlock(ramApi, b, a).0
  }

  // What an onlooker knows is owed: a change the NvM has not been told of since, and an
  // immediate one that no write request has followed.
  datatype Owed = Owed(handOver: bool, write: bool)

  function Settle(o: Owed, r: Request): Owed {
    match r
    case NoRequest => o
    case RamStatus => o.(handOver := false)
    case Write => Owed(false, false)
  }

  function Watch(ramApi: bool, b: Block, o: Owed, e: Event): Owed {
    match e
    case Change(immediate) => Owed(true, o.write || immediate)
    case Main(a) => Settle(o, MainBlock(ramApi, b, a).1)
  }

  datatype Watched = Watched(b: Block, owed: Owed)

  function Run(ramApi: bool, w: Watched, es: seq<Event>, n: nat): Watched
    requires n <= |es|
  {
    if n == 0 then w
    else
      var before := Run(ramApi, w, es, n - 1);
      Watched(Step(ramApi, before.b, es[n - 1]), Watch(ramApi, before.b, before.owed, es[n - 1]))
  }

  const FRESH := Block(Idle, false, false)

  // Without the RAM status request a block never gets into its state.
  predicate StateOk(ramApi: bool, b: Block) { b.state.SetRamBlockStatus? ==> ramApi }

  // No update is lost, whatever the interleaving: the flags say exactly what is owed.
  lemma {:induction false} NoUpdateIsLost(ramApi: bool, es: seq<Event>, n: nat)
    requires n <= |es|
    ensures var w := Run(ramApi, Watched(FRESH, Owed(false, false)), es, n);
            && StateOk(ramApi, w.b)
            && (w.b.dirty <==> w.owed.handOver) && (w.b.pendingWrite <==> w.owed.write)
            && (w.b.state.WriteBlock? && ramApi ==> w.b.pendingWrite)
  {
    if n > 0 { NoUpdateIsLost(ramApi, es, n - 1); }
  }

  lemma {:induction false} WaitsForSomething(ramApi: bool, es: seq<Event>, n: nat)
    requires n <= |es|
    ensures var b := Run(ramApi, Watched(FRESH, Owed(false, false)), es, n).b;
            b.state.WriteBlock? || b.state.SetRamBlockStatus? ==> b.dirty || b.pendingWrite
  {
    NoUpdateIsLost(ramApi, es, n);
    if n > 0 { WaitsForSomething(ramApi, es, n - 1); }
  }

  // The block after a request, with or without a change that has come in since.
  predicate SinceThen(after: Block, changed: Block) {
    changed == after || changed == Changed(after, true, true) || changed == Changed(after, true, false)
  }

  // In every run a request is made only of an NvM whose status can be asked, that is not busy and that
  // takes it, and only for something that is owed; RAM status requests only where they are used, and
  // writes besides them only for immediate changes. After the last of them there is no other request, whatever
  // changes, before the NvM has been seen free again.
  lemma {:induction false} RequestsOnlyWhenOwedAndFree(ramApi: bool, es: seq<Event>, n: nat)
    requires n < |es| && es[n].Main?
    ensures var w, a := Run(ramApi, Watched(FRESH, Owed(false, false)), es, n), es[n].answer;
            var after, request := MainBlock(ramApi, w.b, a).0, MainBlock(ramApi, w.b, a).1;
            && (request != NoRequest ==>
                  a.statusOk && !a.busy && a.accepts && (w.owed.handOver || w.owed.write))
            && (request == RamStatus ==> ramApi)
            && (request == Write && ramApi ==> w.owed.write)
            && (request == Write || (request == RamStatus && !w.owed.write) ==>
                  forall later: Answer, changed: Block | SinceThen(after, changed) ::
                    && MainBlock(ramApi, changed, later).1 == NoRequest
                    && (!later.statusOk || later.busy ==> MainBlock(ramApi, changed, later).0 == changed))
  {
    NoUpdateIsLost(ramApi, es, n);
    WaitsForSomething(ramApi, es, n);
  }

  // ---------- A ready NvM ----------

  predicate Ready(a: Answer) { a.statusOk && !a.busy && a.accepts }

  ghost predicate AllReady(es: seq<Event>) { forall i | 0 <= i < |es| && es[i].Main? :: Ready(es[i].answer) }

  function Mains(es: seq<Event>, n: nat): nat
    requires n <= |es|
  {
    if n == 0 then 0 else Mains(es, n - 1) + if es[n - 1].Main? then 1 else 0
  }

  // Main calls until the write request of a pending block is out, and until it is handed over.
  function CallsToWrite(ramApi: bool, s: State): (n: nat)
    ensures n <= if ramApi then 3 else 2
  {
    match s
    case Idle => if ramApi then 2 else 1
    case SetRamBlockStatus => if ramApi then 2 else 1
    case WriteBlock => 1
    case WaitDone => if ramApi then 3 else 2
  }

  function CallsToHandOver(s: State): (n: nat)
    ensures 1 <= n <= 2
  {
    if s.WaitDone? then 2 else 1
  }

  // From any state, an immediate change is followed by its write request on exactly the
  // CallsToWrite-th main call, at most the third, however many further changes come in between.
  lemma {:induction false} WrittenExactlyThen(ramApi: bool, w: Watched, es: seq<Event>, n: nat)
    requires StateOk(ramApi, w.b) && w.b.pendingWrite && w.owed.write && n <= |es| && AllReady(es)
    requires Mains(es, n) <= CallsToWrite(ramApi, w.b.state)
    ensures var r := Run(ramApi, w, es, n);
            && StateOk(ramApi, r.b)
            && (Mains(es, n) < CallsToWrite(ramApi, w.b.state) ==>
                  && r.owed.write && r.b.pendingWrite
                  && CallsToWrite(ramApi, r.b.state) == CallsToWrite(ramApi, w.b.state) - Mains(es, n))
    ensures n > 0 && es[n - 1].Main? && Mains(es, n) == CallsToWrite(ramApi, w.b.state) ==>
              var before := Run(ramApi, w, es, n - 1);
              MainBlock(ramApi, before.b, es[n - 1].answer).1 == Write && !Run(ramApi, w, es, n).owed.write
  {
    if n > 0 {
      WrittenExactlyThen(ramApi, w, es, n - 1);
      var before := Run(ramApi, w, es, n - 1);
      assert es[n - 1].Main? ==> Ready(es[n - 1].answer);
    }
  }

  // Any change is handed over on exactly the CallsToHandOver-th main call, at most the second.
  lemma {:induction false} HandedOverExactlyThen(ramApi: bool, w: Watched, es: seq<Event>, n: nat)
    requires StateOk(ramApi, w.b) && w.b.dirty && w.owed.handOver && n <= |es| && AllReady(es)
    requires Mains(es, n) <= CallsToHandOver(w.b.state)
    ensures var r := Run(ramApi, w, es, n);
            && StateOk(ramApi, r.b)
            && (Mains(es, n) < CallsToHandOver(w.b.state) ==>
                  r.owed.handOver && r.b.dirty
                    && CallsToHandOver(r.b.state) == CallsToHandOver(w.b.state) - Mains(es, n))
    ensures n > 0 && es[n - 1].Main? && Mains(es, n) == CallsToHandOver(w.b.state) ==>
              var before := Run(ramApi, w, es, n - 1);
              MainBlock(ramApi, before.b, es[n - 1].answer).1 != NoRequest && !Run(ramApi, w, es, n).owed.handOver
  {
    if n > 0 {
      HandedOverExactlyThen(ramApi, w, es, n - 1);
      var before := Run(ramApi, w, es, n - 1);
      assert es[n - 1].Main? ==> Ready(es[n - 1].answer);
    }
  }

  // ---------- All blocks, as the program keeps them ----------

  class BlockTable {
    const ramApi: bool
    const configured: seq<bool>
    const blocks: array<Block>

    predicate Valid() { blocks.Length == |configured| }

    // Dem_NvM_Init.
    constructor (ramApi: bool, configured: seq<bool>)
      ensures Valid() && fresh(blocks) && this.ramApi == ramApi && this.configured == configured
      ensures forall i | 0 <= i < blocks.Length :: blocks[i] == FRESH
    {
      this.ramApi, this.configured := ramApi, configured;
      blocks := new Block[|configured|](_ => FRESH);
    }

    method SetChanged(i: nat, immediate: bool)
      requires Valid() && i < blocks.Length
      modifies blocks
      ensures blocks[..] == old(blocks[..])[i := Changed(old(blocks[i]), configured[i], immediate)]
    {
      if configured[i] {
        blocks[i] := blocks[i].(dirty := true);
        if immediate { blocks[i] := blocks[i].(pendingWrite := true); }
      }
    }

    // Dem_NvM_MainFunction. requests: what the NvM has taken for each block.
    method MainFunction(answers: seq<Answer>) returns (requests: seq<Request>)
      requires Valid() && |answers| == blocks.Length
      modifies blocks
      ensures |requests| == blocks.Length
      ensures forall i | 0 <= i < blocks.Length ::
              (blocks[i], requests[i]) == MainBlock(ramApi, old(blocks[i]), answers[i])
    {
      requests := [];
      var i := 0;
      while i < blocks.Length
        invariant i <= blocks.Length && |requests| == i
        invariant forall k | 0 <= k < i :: (blocks[k], requests[k]) == MainBlock(ramApi, old(blocks[k]), answers[k])
        invariant forall k | i <= k < blocks.Length :: blocks[k] == old(blocks[k])
      {
        var b, a := blocks[i], answers[i];
        var request := NoRequest;
        if b.state.Idle? && (b.pendingWrite || b.dirty) {
          b := b.(state := if ramApi then SetRamBlockStatus else WriteBlock);
        }
        match b.state {
          case SetRamBlockStatus =>
            if ramApi && a.statusOk && !a.busy && a.accepts {
              request := RamStatus;
              b := b.(dirty := false);
              b := b.(state := if b.pendingWrite then WriteBlock else WaitDone);
            }
          case WriteBlock =>
            if a.statusOk && !a.busy && a.accepts {
              request := Write;
              b := b.(pendingWrite := false, dirty := false, state := WaitDone);
            }
          case WaitDone => if a.statusOk && !a.busy { b := b.(state := Idle); }
          case Idle =>
        }
        blocks[i] := b;
        requests := requests + [request];
        i := i + 1;
      }
    }
  }
}
