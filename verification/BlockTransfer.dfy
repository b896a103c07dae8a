/** Download by blocks: RequestDownload and TransferData (section 14.4 of ISO 14229-1:2013) with a
    tester that sends one block at a time and may repeat it. */
module BlockTransfer {
  import opened Prelude

  const ADDRESSES := 0x1_0000_0000

  type uint32 = x: nat | x < ADDRESSES

  // ---------- Memory, as the callout for writing it treats it ----------

  datatype Write = Write(address: nat, data: seq<byte>)

  // log: the writes that took effect; job: one that is under way.
  datatype Memory = Memory(log: seq<Write>, job: Option<Write>)

  datatype Result = Ok | Failed | Pending | ForcePending

  // A call that starts a write gives it; a later one only asks how it went.
  function CallWrite(m: Memory, starts: Option<Write>, result: Result): Memory {
    var job := if starts.Some? then starts else m.job;
    match result
    case Ok => Memory(if job.Some? then m.log + [job.value] else m.log, None)
    case Failed => Memory(m.log, None)
    case Pending => Memory(m.log, job)
    case ForcePending => Memory(m.log, job)
  }

  // ---------- The server ----------

  datatype Progress = Idle | Waiting | ForceAwaitingSend | ForceSent

  datatype Service = Download | Transfer

  // rx: the request that is being worked on while progress is not Idle.
  datatype Server = Server(downloading: bool, counter: byte, firstReceived: bool, nextAddress: nat,
                           progress: Progress, service: Service, rx: seq<byte>)

  datatype Code = Positive(response: seq<byte>) | WrongBlockSequenceCounter | IncorrectLength | RequestSequenceError
                | ProgrammingFailure | Refused | ResponsePending | ForceResponsePending

  datatype Turn = Turn(s: Server, m: Memory, code: Code)

  predicate Continues(p: Progress) { p.Waiting? || p.ForceSent? }

  // How every service of the group ends a call.
  function Conclude(s: Server, service: Service, rx: seq<byte>, code: Code): Server {
    match code
    case ResponsePending => s.(progress := Waiting, service := service, rx := rx)
    case ForceResponsePending => s.(progress := ForceAwaitingSend, service := service, rx := rx)
    case _ => s.(progress := Idle)
  }

  function BigEndian(bytes: seq<byte>): (n: nat)
    decreases |bytes|
  {
    if bytes == [] then 0 else BigEndian(bytes[..|bytes| - 1]) * 0x100 + bytes[|bytes| - 1] as nat
  }

  function Bytes4(n: uint32): seq<byte> {
    [(n / 0x100_0000) as byte, (n / 0x1_0000 % 0x100) as byte, (n / 0x100 % 0x100) as byte, (n % 0x100) as byte]
  }

  lemma {:induction false} Bytes4Decode(n: uint32)
    ensures BigEndian(Bytes4(n)) == n
  {
    var b := Bytes4(n);
    assert b[..3][..2][..1][..0] == [] && b[..3][..2][..1] == [b[0]] && b[..3][..2] == [b[0], b[1]]
      && b[..3] == [b[0], b[1], b[2]];
    assert BigEndian(b[..3][..2][..1]) == b[0] as nat;
    assert BigEndian(b[..3][..2]) == b[0] as nat * 0x100 + b[1] as nat;
    assert BigEndian(b[..3]) == (b[0] as nat * 0x100 + b[1] as nat) * 0x100 + b[2] as nat;
    assert n / 0x1_0000 == n / 0x100 / 0x100 && n / 0x100_0000 == n / 0x1_0000 / 0x100;
  }

  predicate FormatOk(data: seq<byte>) {
    && |data| >= 5
    && var sizeBytes, addressBytes := data[2] as nat / 0x10, data[2] as nat % 0x10;
       |data| == 3 + sizeBytes + addressBytes && 0 < sizeBytes <= 4 && 0 < addressBytes <= 4
  }

  function MemoryAddress(data: seq<byte>): nat
    requires FormatOk(data)
  {
    BigEndian(data[3..3 + data[2] as nat % 0x10])
  }

  // result and blockSize: the answer of the callout that sets the download up.
  function RequestDownload(s: Server, data: seq<byte>, result: Result, blockSize: uint32): (r: (Server, Code)) {
    if !FormatOk(data) then (Conclude(s, Download, data, IncorrectLength), IncorrectLength)
    else
      match result
      case Ok =>
        var begun := s.(downloading := true, counter := 1, firstReceived := false, nextAddress := MemoryAddress(data));
        var code := Positive([0x40] + Bytes4(blockSize));
        (Conclude(begun, Download, data, code), code)
      case Failed => (Conclude(s, Download, data, Refused), Refused)
      case Pending => (Conclude(s, Download, data, ResponsePending), ResponsePending)
      case ForcePending => (Conclude(s, Download, data, ForceResponsePending), ForceResponsePending)
  }

  function Next(counter: byte): byte { if counter == 0xFF then 0 else counter + 1 }

  function Previous(counter: byte): byte { if counter == 0 then 0xFF else counter - 1 }

  // result: the answer of the write callout, should it be called.
  function TransferData(s: Server, m: Memory, data: seq<byte>, result: Result): Turn {
    if !s.downloading then Turn(Conclude(s, Transfer, data, RequestSequenceError), m, RequestSequenceError)
    else if |data| < 3 then Turn(Conclude(s, Transfer, data, IncorrectLength), m, IncorrectLength)
    else if data[1] == s.counter then
      var written :=
        CallWrite(m, if Continues(s.progress) then None else Some(Write(s.nextAddress, data[2..])), result);
      match result
      case Ok =>
        var moved := s.(counter := Next(s.counter), firstReceived := true,
                        nextAddress := (s.nextAddress + |data| - 2) % ADDRESSES);
        Turn(Conclude(moved, Transfer, data, Positive([data[1]])), written, Positive([data[1]]))
      case Failed => Turn(Conclude(s, Transfer, data, ProgrammingFailure), written, ProgrammingFailure)
      case Pending => Turn(Conclude(s, Transfer, data, ResponsePending), written, ResponsePending)
      case ForcePending => Turn(Conclude(s, Transfer, data, ForceResponsePending), written, ForceResponsePending)
    else
      var code :=
        if !s.firstReceived || data[1] != Previous(s.counter) then WrongBlockSequenceCounter else Positive([data[1]]);
      Turn(Conclude(s, Transfer, data, code), m, code)
  }

  // DspUploadDownloadMainFunction: the request that is worked on runs again.
  function MainFunction(s: Server, m: Memory, result: Result, blockSize: uint32): (r: (Server, Memory, Option<Code>)) {
    if s.progress.ForceAwaitingSend? then (s.(progress := ForceSent), m, None)
    else if !Continues(s.progress) then (s, m, None)
    else if s.service.Transfer? then
      var t := TransferData(s, m, s.rx, result);
      (t.s, t.m, Some(t.code))
    else
      var t := RequestDownload(s, s.rx, result, blockSize);
      (t.0, m, Some(t.1))
  }

  // The DSL has given the request up.
  function Cancel(s: Server, m: Memory): (r: (Server, Memory)) {
    if s.progress.Idle? then (s, m) else (s.(progress := Idle), Memory(m.log, None))
  }

  // ---------- A stop-and-wait tester ----------

  // Block i carries the sequence counter (1 + i) mod 256.
  function CounterOf(i: nat): byte { ((1 + i) % 0x100) as byte }

  function BlockRequest(blocks: seq<seq<byte>>, i: nat): (r: seq<byte>)
    requires i < |blocks|
    ensures |r| == |blocks[i]| + 2
  {
    [0x36, CounterOf(i)] + blocks[i]
  }

  // acked: how many blocks the tester has had a positive response for.
  datatype System = System(s: Server, m: Memory, acked: nat)

  // Every response may be lost (heard is false); a block is then sent again. Send repeats the
  // block before the current one when again is set, as a tester with a late timer may.
  datatype Event =
    | Send(again: bool, result: Result, heard: bool)
    | Main(result: Result, blockSize: uint32, heard: bool)
    | GiveUp

  function Hear(sys: System, s: Server, m: Memory, code: Code, current: bool, heard: bool): System {
    System(s, m, if code.Positive? && current && heard then sys.acked + 1 else sys.acked)
  }

  // While the server works on a request the DSL does not let another one in.
  function Step(blocks: seq<seq<byte>>, sys: System, e: Event): System {
    match e
    case Send(again, result, heard) =>
      var i := if again then sys.acked - 1 else sys.acked;
      if !sys.s.progress.Idle? || i < 0 || i >= |blocks| then sys
      else
        var t := TransferData(sys.s, sys.m, BlockRequest(blocks, i), result);
        Hear(sys, t.s, t.m, t.code, !again, heard)
    case Main(result, blockSize, heard) =>
      var t := MainFunction(sys.s, sys.m, result, blockSize);
      if t.2.Some? then Hear(sys, t.0, t.1, t.2.value, true, heard) else System(t.0, t.1, sys.acked)
    case GiveUp =>
      var t := Cancel(sys.s, sys.m);
      System(t.0, t.1, sys.acked)
  }

  function Run(blocks: seq<seq<byte>>, sys: System, es: seq<Event>): System
    decreases es
  {
    if es == [] then sys else Run(blocks, Step(blocks, sys, es[0]), es[1..])
  }

  // ---------- What the memory must look like ----------

  function Total(blocks: seq<seq<byte>>, n: nat): nat
    requires n <= |blocks|
  {
    if n == 0 then 0 else Total(blocks, n - 1) + |blocks[n - 1]|
  }

  // The first n blocks, each written once, each where the one before it ends.
  function Image(blocks: seq<seq<byte>>, start: nat, n: nat): (log: seq<Write>)
    requires n <= |blocks|
    ensures |log| == n
  {
    if n == 0 then []
    else Image(blocks, start, n - 1) + [Write((start + Total(blocks, n - 1)) % ADDRESSES, blocks[n - 1])]
  }

  lemma {:induction false} ImageIsContiguous(blocks: seq<seq<byte>>, start: nat, n: nat, i: nat)
    requires n <= |blocks| && i < n
    ensures var log := Image(blocks, start, n);
            && log[i].data == blocks[i]
            && log[i].address == (start + Total(blocks, i)) % ADDRESSES
            && (i + 1 < n ==> log[i + 1].address == (log[i].address + |log[i].data|) % ADDRESSES)
            && (i == 0 ==> log[i].address == start % ADDRESSES)
  {
    if i + 1 < n {
      if i + 2 < n {
        ImageIsContiguous(blocks, start, n - 1, i);
      } else {
        ImageIsContiguous(blocks, start, n - 1, i);
        AddressesAdd(start + Total(blocks, i), |blocks[i]|);
      }
    }
  }

  lemma {:induction false} AddressesAdd(a: nat, b: nat)
    ensures (a % ADDRESSES + b) % ADDRESSES == (a + b) % ADDRESSES
  {
  }

  // applied: how many blocks have been written since the download began with log base.
  ghost predicate Inv(blocks: seq<seq<byte>>, base: seq<Write>, start: nat, sys: System, applied: nat) {
    && (forall i | 0 <= i < |blocks| :: |blocks[i]| >= 1)
    && applied <= |blocks| && (sys.acked == applied || sys.acked + 1 == applied)
    && sys.s.downloading
    && sys.m.log == base + Image(blocks, start, applied)
    && sys.s.counter == CounterOf(applied)
    && (sys.s.firstReceived <==> applied > 0)
    && sys.s.nextAddress == (start + Total(blocks, applied)) % ADDRESSES
    && (!sys.s.progress.Idle? ==>
          && sys.acked == applied < |blocks| && sys.s.service.Transfer?
          && sys.s.rx == BlockRequest(blocks, applied)
          && sys.m.job == Some(Write(sys.s.nextAddress, blocks[applied])))
  }

  lemma {:induction false} Counters(i: nat)
    ensures CounterOf(i + 1) == Next(CounterOf(i)) && Previous(CounterOf(i + 1)) == CounterOf(i)
    ensures CounterOf(i + 1) != CounterOf(i) && CounterOf(i + 2) != CounterOf(i)
  {
  }

  // The block the server waits for, whatever it is: it is written once, or worked on, or lost.
  lemma {:induction false} ExpectedBlock(s: Server, m: Memory, data: seq<byte>, result: Result)
    requires s.downloading && |data| >= 3 && data[1] == s.counter
    requires Continues(s.progress) ==> m.job == Some(Write(s.nextAddress, data[2..]))
    ensures var t := TransferData(s, m, data, result);
            var w := Write(s.nextAddress, data[2..]);
            if result.Ok? then
              && t.code == Positive([data[1]]) && t.m == Memory(m.log + [w], None)
              && t.s == s.(counter := Next(s.counter), firstReceived := true, progress := Idle,
                           nextAddress := (s.nextAddress + |data| - 2) % ADDRESSES)
            else
              && !t.code.Positive? && t.m.log == m.log
              && t.s == s.(progress := t.s.progress, service := t.s.service, rx := t.s.rx)
              && (!t.s.progress.Idle? ==> t.s.service.Transfer? && t.s.rx == data && t.m.job == Some(w))
  {
  }

  // The next block arrives, or the server goes on working on it.
  lemma {:induction false} NextBlock(blocks: seq<seq<byte>>, base: seq<Write>, start: nat, sys: System, applied: nat,
                                     result: Result)
    requires Inv(blocks, base, start, sys, applied) && sys.acked == applied < |blocks|
    ensures var t := TransferData(sys.s, sys.m, BlockRequest(blocks, applied), result);
            if result.Ok? then
              && t.code == Positive([CounterOf(applied)]) && t.s.progress.Idle?
              && Inv(blocks, base, start, System(t.s, t.m, applied), applied + 1)
              && Inv(blocks, base, start, System(t.s, t.m, applied + 1), applied + 1)
            else !t.code.Positive? && Inv(blocks, base, start, System(t.s, t.m, applied), applied)
  {
    hide TransferData;
    assert BlockRequest(blocks, applied)[1] == CounterOf(applied)
      && BlockRequest(blocks, applied)[2..] == blocks[applied];
    ExpectedBlock(sys.s, sys.m, BlockRequest(blocks, applied), result);
    hide BlockRequest;
    if result.Ok? { BlockApplied(blocks, base, start, applied); }
    hide Image, Total, CounterOf, Next;
  }

  lemma {:induction false} BlockApplied(blocks: seq<seq<byte>>, base: seq<Write>, start: nat, n: nat)
    requires n < |blocks|
    ensures Next(CounterOf(n)) == CounterOf(n + 1)
    ensures (start + Total(blocks, n + 1)) % ADDRESSES
         == ((start + Total(blocks, n)) % ADDRESSES + |blocks[n]|) % ADDRESSES
    ensures base + Image(blocks, start, n + 1)
         == base + Image(blocks, start, n) + [Write((start + Total(blocks, n)) % ADDRESSES, blocks[n])]
  {
    Counters(n);
    AddressesAdd(start + Total(blocks, n), |blocks[n]|);
  }

  // A block that has been written before is answered, or refused, and not written again.
  lemma {:induction false} OldBlock(blocks: seq<seq<byte>>, base: seq<Write>, start: nat, sys: System, applied: nat,
                                    i: nat, result: Result)
    requires Inv(blocks, base, start, sys, applied) && sys.s.progress.Idle? && i < applied <= i + 2
    ensures var t := TransferData(sys.s, sys.m, BlockRequest(blocks, i), result);
            && t.s == sys.s && t.m == sys.m && (t.code.Positive? <==> i + 1 == applied)
  {
    Counters(i);
    Counters(i + 1);
    hide Image, Total, CounterOf;
  }

  lemma {:induction false} StepKeepsInv(blocks: seq<seq<byte>>, base: seq<Write>, start: nat, sys: System, applied: nat,
                                        e: Event)
    returns (now: nat)
    requires Inv(blocks, base, start, sys, applied)
    ensures Inv(blocks, base, start, Step(blocks, sys, e), now) && applied <= now <= applied + 1
  {
    hide TransferData, RequestDownload, Image, Total, CounterOf, BlockRequest;
    now := applied;
    match e
    case GiveUp =>
    case Main(result, _, heard) =>
      if Continues(sys.s.progress) {
        NextBlock(blocks, base, start, sys, applied, result);
        if result.Ok? { now := applied + 1; }
      }
    case Send(again, result, heard) =>
      var i := if again then sys.acked - 1 else sys.acked;
      if sys.s.progress.Idle? && 0 <= i < |blocks| {
        if i < applied {
          OldBlock(blocks, base, start, sys, applied, i, result);
        } else {
          NextBlock(blocks, base, start, sys, applied, result);
          if result.Ok? { now := applied + 1; }
        }
      }
  }

  lemma {:induction false} RunKeepsInv(blocks: seq<seq<byte>>, base: seq<Write>, start: nat, sys: System, applied: nat,
                                       es: seq<Event>)
    returns (now: nat)
    requires Inv(blocks, base, start, sys, applied)
    ensures Inv(blocks, base, start, Run(blocks, sys, es), now) && applied <= now
    decreases es
  {
    if es == [] {
      now := applied;
    } else {
      now := StepKeepsInv(blocks, base, start, sys, applied, es[0]);
      now := RunKeepsInv(blocks, base, start, Step(blocks, sys, es[0]), now, es[1..]);
    }
  }

  ghost predicate Fresh(blocks: seq<seq<byte>>, sys: System) {
    && (forall i | 0 <= i < |blocks| :: |blocks[i]| >= 1)
    && sys.acked == 0 && sys.s.progress.Idle? && sys.s.downloading
    && sys.s.counter == 1 && !sys.s.firstReceived && sys.s.nextAddress < ADDRESSES
  }

  lemma {:induction false} FreshInv(blocks: seq<seq<byte>>, sys: System)
    requires Fresh(blocks, sys)
    ensures Inv(blocks, sys.m.log, sys.s.nextAddress, sys, 0)
  {
    assert sys.m.log + Image(blocks, sys.s.nextAddress, 0) == sys.m.log;
  }

  // However often blocks and responses are lost, repeated, delayed or given up, and however
  // often writes fail or are pending: the blocks the tester has had an answer for, and at most
  // one more, have been written, each exactly once, contiguously from the start address; and
  // nextAddress is the start plus all the bytes written.
  lemma {:induction false} EachBlockOnce(blocks: seq<seq<byte>>, sys: System, es: seq<Event>) returns (applied: nat)
    requires Fresh(blocks, sys)
    ensures var r := Run(blocks, sys, es);
            && applied <= |blocks| && (r.acked == applied || r.acked + 1 == applied)
            && r.m.log == sys.m.log + Image(blocks, sys.s.nextAddress, applied)
            && r.s.nextAddress == (sys.s.nextAddress + Total(blocks, applied)) % ADDRESSES
            && (r.acked == |blocks| ==> r.m.log == sys.m.log + Image(blocks, sys.s.nextAddress, |blocks|))
  {
    FreshInv(blocks, sys);
    applied := RunKeepsInv(blocks, sys.m.log, sys.s.nextAddress, sys, 0, es);
  }

  // And the tester gets on: when the server is idle, one write that succeeds and one response
  // that arrives are enough for the current block, whatever happened to it before.
  lemma {:induction false} OneGoodExchangeIsEnough(blocks: seq<seq<byte>>, sys: System, es: seq<Event>)
    requires Fresh(blocks, sys)
    requires var r := Run(blocks, sys, es); r.s.progress.Idle? && r.acked < |blocks|
    ensures var r := Run(blocks, sys, es); Step(blocks, r, Send(false, Ok, true)).acked == r.acked + 1
  {
    FreshInv(blocks, sys);
    var r := Run(blocks, sys, es);
    var applied := RunKeepsInv(blocks, sys.m.log, sys.s.nextAddress, sys, 0, es);
    hide TransferData;
    if r.acked < applied {
      OldBlock(blocks, sys.m.log, sys.s.nextAddress, r, applied, r.acked, Ok);
    } else {
      NextBlock(blocks, sys.m.log, sys.s.nextAddress, r, applied, Ok);
    }
  }

  // ---------- From the request to the first write ----------

  // n is the number these bytes write, the most significant one first.
  predicate IsNumber(n: nat, bytes: seq<byte>) {
    && n < Power256(|bytes|)
    && forall j | 0 <= j < |bytes| :: bytes[j] as nat == n / Power256(|bytes| - 1 - j) % 0x100
  }

  lemma {:induction false} BigEndianIsNumber(bytes: seq<byte>)
    ensures IsNumber(BigEndian(bytes), bytes)
    decreases |bytes|
  {
    if bytes != [] {
      var last := |bytes| - 1;
      var n, front := BigEndian(bytes), bytes[..last];
      BigEndianIsNumber(front);
      forall j | 0 <= j < |bytes| ensures bytes[j] as nat == n / Power256(last - j) % 0x100 {
        if j < last {
          assert bytes[j] == front[j];
          DivDiv(n, Power256(last - 1 - j));
        }
      }
    }
  }

  lemma {:induction false} DivDiv(n: nat, p: nat)
    requires p >= 1
    ensures n / (0x100 * p) == n / 0x100 / p
  {
    var q, r, t := n / 0x100 / p, n / 0x100 % p, n % 0x100;
    assert n / 0x100 == p * q + r;
    assert n == 0x100 * p * q + (0x100 * r + t);
    QuotientIs(n, 0x100 * p, q, 0x100 * r + t);
  }

  lemma {:induction false} QuotientIs(n: nat, d: nat, q: nat, r: nat)
    requires d > 0 && n == d * q + r && r < d
    ensures n / d == q
  {
    assert n == d * (n / d) + n % d;
    if n / d < q { More(d, n / d + 1, q); } else if n / d > q { More(d, q + 1, n / d); }
  }

  lemma {:induction false} More(d: nat, m: nat, n: nat)
    requires m <= n
    ensures d * m <= d * n
  {
  }

  // A request that carries the address a and the size z, in one to four bytes each.
  predicate Carries(data: seq<byte>, a: seq<byte>, z: seq<byte>) {
    && 1 <= |a| <= 4 && 1 <= |z| <= 4
    && |data| >= 3 && data[2] as nat == 0x10 * |z| + |a| && data[3..] == a + z
  }

  // Exactly such requests are accepted. They start all this: counter 1, no block received, the
  // address the tester has written, and a response that tells the block size.
  lemma {:induction false} AcceptedDownloadIsFresh(s: Server, m: Memory, data: seq<byte>, blockSize: uint32,
                                                   blocks: seq<seq<byte>>)
    requires (forall i | 0 <= i < |blocks| :: |blocks[i]| >= 1)
    ensures var r := RequestDownload(s, data, Ok, blockSize);
            && (r.1.Positive? <==> exists a, z :: Carries(data, a, z))
            && (r.1.Positive? ==>
                  && Fresh(blocks, System(r.0, m, 0))
                  && |r.1.response| == 5 && r.1.response[0] == 0x40 && IsNumber(blockSize, r.1.response[1..]))
            && (!r.1.Positive? ==> r == (s.(progress := Idle), IncorrectLength))
    ensures forall a, z | Carries(data, a, z) :: IsNumber(RequestDownload(s, data, Ok, blockSize).0.nextAddress, a)
  {
    Bytes4Decode(blockSize);
    BigEndianIsNumber(Bytes4(blockSize));
    if FormatOk(data) {
      var n := data[2] as nat % 0x10;
      var a, z := data[3..3 + n], data[3 + n..];
      assert Carries(data, a, z);
      AddressFits(a);
      BigEndianIsNumber(a);
      assert ([0x40] + Bytes4(blockSize))[1..] == Bytes4(blockSize);
      hide BigEndian, IsNumber, Bytes4;
      forall a', z' | Carries(data, a', z') ensures a' == a { CarriesOnce(data, a', z', a, z); }
    } else {
      forall a, z ensures !Carries(data, a, z) {}
    }
  }

  lemma {:induction false} CarriesOnce(data: seq<byte>, a: seq<byte>, z: seq<byte>, a': seq<byte>, z': seq<byte>)
    requires Carries(data, a, z) && Carries(data, a', z')
    ensures a == a' && z == z'
  {
    assert a == (a + z)[..|a|] && a' == (a' + z')[..|a'|];
    assert z == (a + z)[|a|..] && z' == (a' + z')[|a'|..];
  }

  lemma {:induction false} FirstWrite(blocks: seq<seq<byte>>, sys: System, es: seq<Event>)
    requires Fresh(blocks, sys)
    ensures var log := Run(blocks, sys, es).m.log;
            && sys.m.log <= log
            && (|log| > |sys.m.log| ==>
                  |blocks| > 0 && log[|sys.m.log|] == Write(sys.s.nextAddress, blocks[0]))
  {
    hide Run;
    var applied := EachBlockOnce(blocks, sys, es);
    if applied > 0 { ImageIsContiguous(blocks, sys.s.nextAddress, applied, 0); }
  }

  // Whatever the run after it holds: the first byte of the image is written at the address the
  // tester has asked for, be it written in four bytes or in fewer.
  lemma {:induction false} ImageStartsAtTheAddress(s: Server, m: Memory, f: byte, a: seq<byte>, z: seq<byte>,
                                                   blockSize: uint32, blocks: seq<seq<byte>>, es: seq<Event>)
    requires 1 <= |a| <= 4 && 1 <= |z| <= 4 && forall i | 0 <= i < |blocks| :: |blocks[i]| >= 1
    ensures var request := [0x34, f, (0x10 * |z| + |a|) as byte] + a + z;
            var log := Run(blocks, System(RequestDownload(s, request, Ok, blockSize).0, m, 0), es).m.log;
            && m.log <= log
            && (|log| > |m.log| ==>
                  && |blocks| > 0 && log[|m.log|].data == blocks[0] && IsNumber(log[|m.log|].address, a)
                  && forall n: uint32 | a == Bytes4(n) :: log[|m.log|].address == n)
  {
    var request := [0x34, f, (0x10 * |z| + |a|) as byte] + a + z;
    assert request[3..] == a + z && Carries(request, a, z);
    hide RequestDownload, IsNumber, Carries, Run, Bytes4, Fresh;
    AcceptedDownloadIsFresh(s, m, request, blockSize, blocks);
    var start := RequestDownload(s, request, Ok, blockSize).0;
    FirstWrite(blocks, System(start, m, 0), es);
    NumberIsBigEndian(start.nextAddress, a);
    forall n: uint32 | a == Bytes4(n) ensures start.nextAddress == n { Bytes4Decode(n); }
  }

  lemma {:induction false} NumberIsBigEndian(n: nat, bytes: seq<byte>)
    requires IsNumber(n, bytes)
    ensures n == BigEndian(bytes)
    decreases |bytes|
  {
    if bytes != [] {
      var last := |bytes| - 1;
      var front := bytes[..last];
      forall j | 0 <= j < last ensures front[j] as nat == n / 0x100 / Power256(last - 1 - j) % 0x100 {
        DivDiv(n, Power256(last - 1 - j));
        assert bytes[j] as nat == n / Power256(last - j) % 0x100;
      }
      NumberIsBigEndian(n / 0x100, front);
      assert bytes[last] as nat == n / Power256(0) % 0x100;
    }
  }

  // A request that has been pending is answered, later, as if it had been answered at once.
  lemma {:induction false} PendingDownloadResumes(s: Server, m: Memory, data: seq<byte>, later: Result,
                                                  blockSize: uint32)
    requires FormatOk(data)
    ensures var waiting := RequestDownload(s, data, Pending, 0);
            var forced := RequestDownload(s, data, ForcePending, 0);
            var again := RequestDownload(s, data, later, blockSize);
            && waiting.1.ResponsePending? && forced.1.ForceResponsePending?
            && (later.Ok? ==> MainFunction(waiting.0, m, later, blockSize)
                              == (again.0.(service := Download, rx := data), m, Some(again.1)))
            && MainFunction(forced.0, m, later, blockSize) == (forced.0.(progress := ForceSent), m, None)
            && (later.Ok? ==> MainFunction(forced.0.(progress := ForceSent), m, later, blockSize)
                              == (again.0.(service := Download, rx := data), m, Some(again.1)))
  {
    hide MemoryAddress, Bytes4;
  }

  // Once a request is given up the server takes the next one, and the write that was under way never
  // takes effect; the download itself goes on where it was.
  lemma {:induction false} GiveUpFrees(s: Server, m: Memory)
    ensures var r := Cancel(s, m);
            && r.0.progress.Idle? && r.1.log == m.log && (!s.progress.Idle? ==> r.1.job.None?)
            && (s.progress.Idle? ==> r.1.job == m.job)
            && r.0.downloading == s.downloading && r.0.counter == s.counter
            && r.0.firstReceived == s.firstReceived && r.0.nextAddress == s.nextAddress
  {
  }

  // A request that the callout for setting it up refuses, or has not finished, changes nothing about the
  // download; in the latter case the server works on it.
  lemma {:induction false} DownloadNotYet(s: Server, data: seq<byte>, result: Result, blockSize: uint32)
    requires FormatOk(data)
    ensures var r := RequestDownload(s, data, result, blockSize);
            && (result.Failed? ==> r == (s.(progress := Idle), Refused))
            && (result.Pending? ==> r == (s.(progress := Waiting, service := Download, rx := data), ResponsePending))
            && (result.ForcePending? ==>
                  r == (s.(progress := ForceAwaitingSend, service := Download, rx := data), ForceResponsePending))
  {
    hide MemoryAddress, Bytes4;
  }

  // Nor does an expected block whose write fails, and is over, or has not finished, and goes on.
  lemma {:induction false} BlockNotYet(s: Server, m: Memory, data: seq<byte>, result: Result)
    requires s.downloading && |data| >= 3 && data[1] == s.counter && s.progress.Idle?
    ensures var t := TransferData(s, m, data, result);
            var job := Some(Write(s.nextAddress, data[2..]));
            && (result.Failed? ==> t == Turn(s, Memory(m.log, None), ProgrammingFailure))
            && (result.Pending? ==>
                  t == Turn(s.(progress := Waiting, service := Transfer, rx := data), Memory(m.log, job),
                            ResponsePending))
            && (result.ForcePending? ==>
                  t == Turn(s.(progress := ForceAwaitingSend, service := Transfer, rx := data), Memory(m.log, job),
                            ForceResponsePending))
  {
  }

  // What TransferData refuses, in its order; nothing is written then. A block that repeats the
  // last one is acknowledged, and not written either.
  lemma {:induction false} OutOfTurn(s: Server, m: Memory, data: seq<byte>, result: Result)
    ensures var t := TransferData(s, m, data, result);
            (!s.downloading || |data| < 3 || data[1] != s.counter) ==>
              && t.m == m && t.s == s.(progress := Idle)
              && t.code == if !s.downloading then RequestSequenceError
                           else if |data| < 3 then IncorrectLength
                           else if s.firstReceived && (data[1] as nat + 1) % 0x100 == s.counter as nat
                           then Positive([data[1]])
                           else WrongBlockSequenceCounter
  {
  }

  function Power256(n: nat): (p: nat)
    ensures p >= 1
  {
    if n == 0 then 1 else 0x100 * Power256(n - 1)
  }

  lemma {:induction false} BigEndianBound(bytes: seq<byte>)
    ensures BigEndian(bytes) < Power256(|bytes|)
    decreases |bytes|
  {
    if bytes != [] { BigEndianBound(bytes[..|bytes| - 1]); }
  }

  lemma {:induction false} AddressFits(bytes: seq<byte>)
    requires |bytes| <= 4
    ensures BigEndian(bytes) < ADDRESSES
  {
    BigEndianBound(bytes);
    assert Power256(1) == 0x100 && Power256(2) == 0x1_0000 && Power256(3) == 0x100_0000 && Power256(4) == ADDRESSES;
  }

  // ---------- The server as the program runs it ----------

  // TransferStatus and dspUdsUploadDownloadPending, with the memory they drive.
  class BlockServer {
    var downloading: bool
    var counter: byte
    var firstReceived: bool
    var nextAddress: nat
    var progress: Progress
    var service: Service
    var rx: seq<byte>
    var log: seq<Write>
    var job: Option<Write>

    ghost function State(): Server
      reads this
    {
      Server(downloading, counter, firstReceived, nextAddress, progress, service, rx)
    }

    ghost function Mem(): Memory
      reads this
    {
      Memory(log, job)
    }

    // DspInit.
    constructor ()
      ensures State() == Server(false, 0, false, 0, Idle, Download, []) && Mem() == Memory([], None)
    {
      downloading, counter, firstReceived, nextAddress := false, 0, false, 0;
      progress, service, rx := Idle, Download, [];
      log, job := [], None;
    }

    method WriteMemory(starts: Option<Write>, result: Result)
      modifies this`log, this`job
      ensures Mem() == CallWrite(old(Mem()), starts, result)
    {
      if starts.Some? { job := starts; }
      match result
      case Ok =>
        if job.Some? { log := log + [job.value]; }
        job := None;
      case Failed => job := None;
      case _ =>
    }

    method End(s: Service, data: seq<byte>, code: Code)
      modifies this`progress, this`service, this`rx
      ensures State() == Conclude(old(State()), s, data, code)
    {
      if code.ResponsePending? {
        progress, rx, service := Waiting, data, s;
      } else if code.ForceResponsePending? {
        progress, rx, service := ForceAwaitingSend, data, s;
      } else {
        progress := Idle;
      }
    }

    // The most significant byte first, shifted into a 32-bit word.
    method ReadAddress(bytes: seq<byte>) returns (address: nat)
      requires |bytes| <= 4
      ensures address == BigEndian(bytes) < ADDRESSES
    {
      address := 0;
      var i := 0;
      while i < |bytes|
        invariant i <= |bytes| && address == BigEndian(bytes[..i])
      {
        AddressFits(bytes[..i + 1]);
        assert bytes[..i + 1][..i] == bytes[..i];
        address := (address * 0x100 + bytes[i] as nat) % ADDRESSES;
        i := i + 1;
      }
      assert bytes[..|bytes|] == bytes;
      AddressFits(bytes);
    }

    method StartDownload(data: seq<byte>, result: Result, blockSize: uint32) returns (code: Code)
      modifies this`downloading, this`counter, this`firstReceived, this`nextAddress, this`progress, this`service,
        this`rx
      ensures (State(), code) == RequestDownload(old(State()), data, result, blockSize)
    {
      code := IncorrectLength;
      if |data| >= 5 {
        var sizeBytes, addressBytes := data[2] as nat / 0x10, data[2] as nat % 0x10;
        if |data| == 3 + sizeBytes + addressBytes && 0 < sizeBytes <= 4 && 0 < addressBytes <= 4 {
          var address := ReadAddress(data[3..3 + addressBytes]);
          match result
          case Ok =>
            code := Positive([0x40] + Bytes4(blockSize));
            downloading, counter, firstReceived, nextAddress := true, 1, false, address;
          case Pending => code := ResponsePending;
          case ForcePending => code := ForceResponsePending;
          case Failed => code := Refused;
        }
      }
      End(Download, data, code);
    }

    method ReceiveBlock(data: seq<byte>, result: Result) returns (code: Code)
      modifies this
      ensures Turn(State(), Mem(), code) == TransferData(old(State()), old(Mem()), data, result)
    {
      if !downloading {
        code := RequestSequenceError;
      } else if |data| < 3 {
        code := IncorrectLength;
      } else if data[1] == counter {
        if Continues(progress) {
          WriteMemory(None, result);
        } else {
          WriteMemory(Some(Write(nextAddress, data[2..])), result);
        }
        match result
        case Ok =>
          counter := ((counter as int + 1) % 0x100) as byte;
          firstReceived := true;
          nextAddress := (nextAddress + |data| - 2) % ADDRESSES;
          code := Positive([data[1]]);
        case ForcePending => code := ForceResponsePending;
        case Pending => code := ResponsePending;
        case Failed => code := ProgrammingFailure;
      } else {
        var okCounter := if counter == 0 then 0xFF else counter - 1;
        if !firstReceived || data[1] != okCounter {
          code := WrongBlockSequenceCounter;
        } else {
          code := Positive([data[1]]);
        }
      }
      End(Transfer, data, code);
    }

    // DspCancelPendingUploadDownload.
    method CancelPending()
      modifies this
      ensures (State(), Mem()) == Cancel(old(State()), old(Mem()))
    {
      if !progress.Idle? {
        job := None;
        progress := Idle;
      }
    }

    // DspUploadDownloadMainFunction.
    method UploadDownloadMain(result: Result, blockSize: uint32) returns (code: Option<Code>)
      modifies this
      ensures (State(), Mem(), code) == MainFunction(old(State()), old(Mem()), result, blockSize)
    {
      code := None;
      if progress.ForceAwaitingSend? {
        progress := ForceSent;
      } else if Continues(progress) {
        var answer;
        if service.Transfer? {
          answer := ReceiveBlock(rx, result);
        } else {
          answer := StartDownload(rx, result, blockSize);
        }
        code := Some(answer);
      }
    }
  }
}
