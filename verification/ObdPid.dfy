/** OBD service 0x01: the availability bitmaps of the supported PIDs (Annex A of ISO 15031-5), and
    what a client learns from them. */
module ObdPid {
  import opened Bits
  import opened Prelude

  const GROUP := 0x20

  type PidId = p: nat | p < 0x100

  datatype Service = Service01 | Service02 | Service0102

  // size: of its data in bytes.
  datatype Pid = Pid(id: PidId, service: Service, size: nat, enabled: bool)

  predicate Offered(p: Pid, service: Service) { p.service.Service0102? || p.service == service }

  // ---------- One bitmap ----------

  // The first n configured PIDs, seen from availability PID first.
  function Availability(pids: seq<Pid>, service: Service, first: PidId, n: nat): Word
    requires n <= |pids|
  {
    if n == 0 then Zero()
    else
      var before := Availability(pids, service, first, n - 1);
      var id := pids[n - 1].id;
      if !Offered(pids[n - 1], service) then before
      else if first + 1 <= id <= first + GROUP then Or(before, Shl(One(), GROUP - (id - first)))
      else if id > first + GROUP then Or(before, One())
      else before
  }

  predicate Has(pids: seq<Pid>, service: Service, id: nat) {
    exists p :: p in pids && Offered(p, service) && p.id == id
  }

  // Whether a configured PID makes bit b of the bitmap set.
  predicate Marks(p: Pid, service: Service, first: PidId, b: nat) {
    Offered(p, service) && if b >= 1 then p.id == first + GROUP - b else p.id >= first + GROUP
  }

  lemma {:induction false} AvailabilityBits(pids: seq<Pid>, service: Service, first: PidId, n: nat, b: nat)
    requires n <= |pids| && b < 32
    ensures Availability(pids, service, first, n)[b] <==> exists k :: 0 <= k < n && Marks(pids[k], service, first, b)
  {
    if n > 0 {
      AvailabilityBits(pids, service, first, n - 1, b);
      var id := pids[n - 1].id;
      assert Availability(pids, service, first, n)[b] <==>
             Availability(pids, service, first, n - 1)[b] || Marks(pids[n - 1], service, first, b);
    }
  }

  // Bits 31 to 1 stand for the 31 PIDs that follow; bit 0 for everything from the next
  // availability PID on.
  lemma {:induction false} BitmapMeans(pids: seq<Pid>, service: Service, first: PidId, b: nat)
    requires b < 32
    ensures var map_ := Availability(pids, service, first, |pids|);
            && (b >= 1 ==> (map_[b] <==> Has(pids, service, first + GROUP - b)))
            && (b == 0 ==> (map_[b] <==> exists p :: p in pids && Offered(p, service) && p.id >= first + GROUP))
  {
    AvailabilityBits(pids, service, first, |pids|, b);
    if k :| 0 <= k < |pids| && Marks(pids[k], service, first, b) {
      assert pids[k] in pids;
    }
  }

  // setAvailabilityPidValue: the loop over the configured PIDs.
  method SetAvailability(pids: seq<Pid>, service: Service, first: PidId) returns (data: Word)
    ensures data == Availability(pids, service, first, |pids|)
  {
    data := Zero();
    var i := 0;
    while i < |pids|
      invariant i <= |pids| && data == Availability(pids, service, first, i)
    {
      var id := pids[i].id;
      if pids[i].service.Service0102? || pids[i].service == service {
        if first + 1 <= id <= first + GROUP {
          var shift := id - first;
          data := Or(data, Shl(One(), GROUP - shift));
        } else if id > first + GROUP {
          data := Or(data, One());
        }
      }
      i := i + 1;
    }
  }

  // ---------- Service 0x01 ----------

  const OBD_REQ_MESSAGE_LEN_MIN := 2
  const OBD_REQ_MESSAGE_LEN_MAX := 7

  // A PID with its data, in a response.
  datatype Group = Group(pid: PidId, data: seq<Byte>)

  datatype Answer = Positive(groups: seq<Group>) | RequestOutOfRange | IncorrectLength | ConditionsNotCorrect

  predicate IsAvailabilityPid(pid: PidId) { pid % GROUP == 0 }

  function LookUp(pids: seq<Pid>, service: Service, id: PidId, from: nat := 0): (r: nat)
    requires from <= |pids|
    ensures from <= r <= |pids|
    ensures r < |pids| ==> pids[r].id == id && Offered(pids[r], service) && pids[r].enabled
    ensures forall k | from <= k < r :: !(pids[k].id == id && Offered(pids[k], service) && pids[k].enabled)
    decreases |pids| - from
  {
    if from == |pids| || (pids[from].id == id && Offered(pids[from], service) && pids[from].enabled) then from
    else LookUp(pids, service, id, from + 1)
  }

  // The most significant byte first.
  function WordBytes(w: Word): (bytes: seq<Byte>)
    ensures |bytes| == 4
  {
    [LowByte(Shr(w, 24)), LowByte(Shr(w, 16)), LowByte(Shr(w, 8)), LowByte(w)]
  }

  // What the size of the response is estimated to be before it is built.
  function Estimate(pids: seq<Pid>, asked: seq<PidId>, n: nat): (length: nat)
    requires n <= |asked|
  {
    if n == 0 then 1
    else
      var before := Estimate(pids, asked, n - 1);
      var k := LookUp(pids, Service01, asked[n - 1]);
      if IsAvailabilityPid(asked[n - 1]) then before + 5
      else if k < |pids| then before + 1 + pids[k].size
      else before
  }

  function CountAvailability(asked: seq<PidId>, n: nat): (r: nat)
    requires n <= |asked|
    ensures r <= n
  {
    if n == 0 then 0 else CountAvailability(asked, n - 1) + if IsAvailabilityPid(asked[n - 1]) then 1 else 0
  }

  // The bitmaps for the first n PIDs asked for. An empty bitmap is left out, except the first.
  function Bitmaps(pids: seq<Pid>, asked: seq<PidId>, n: nat): (groups: seq<Group>)
    requires n <= |asked|
    ensures |groups| <= n
  {
    if n == 0 then []
    else
      var before := Bitmaps(pids, asked, n - 1);
      var data := Availability(pids, Service01, asked[n - 1], |pids|);
      if data != Zero() || asked[n - 1] == 0 then before + [Group(asked[n - 1], WordBytes(data))] else before
  }

  // The values of the first n PIDs asked for; None once one could not be read. read: the
  // data a PID delivers, None if it does not.
  function Values(pids: seq<Pid>, asked: seq<PidId>, read: PidId -> Option<seq<Byte>>,
                  n: nat): (groups: Option<seq<Group>>)
    requires n <= |asked|
    ensures groups.Some? ==> |groups.value| <= n
  {
    if n == 0 then Some([])
    else
      var before := Values(pids, asked, read, n - 1);
      var k := LookUp(pids, Service01, asked[n - 1]);
      if before.None? || k == |pids| then before
      else if read(asked[n - 1]).None? then None
      else Some(before.value + [Group(asked[n - 1], FitTo(read(asked[n - 1]).value, pids[k].size, ZeroByte()))])
  }

  // room: the size of the response buffer.
  function CurrentData(pids: seq<Pid>, asked: seq<PidId>, room: nat, read: PidId -> Option<seq<Byte>>): Answer {
    if !(OBD_REQ_MESSAGE_LEN_MIN <= 1 + |asked| <= OBD_REQ_MESSAGE_LEN_MAX) then IncorrectLength
    else if Estimate(pids, asked, |asked|) > room then RequestOutOfRange
    else if CountAvailability(asked, |asked|) == |asked| then
      var groups := Bitmaps(pids, asked, |asked|);
      if groups == [] then RequestOutOfRange else Positive(groups)
    else if CountAvailability(asked, |asked|) == 0 then
      var groups := Values(pids, asked, read, |asked|);
      if groups.None? then ConditionsNotCorrect
      else if groups.value == [] then RequestOutOfRange else Positive(groups.value)
    else IncorrectLength
  }

  function Length(groups: seq<Group>): nat
    decreases |groups|
  {
    if groups == [] then 1 else Length(groups[..|groups| - 1]) + 1 + |groups[|groups| - 1].data|
  }

  lemma {:induction false} LengthSnoc(groups: seq<Group>, g: Group)
    ensures Length(groups + [g]) == Length(groups) + 1 + |g.data|
  {
    assert (groups + [g])[..|groups|] == groups;
  }

  // The response never outgrows the buffer.
  lemma {:induction false} ResponseFits(pids: seq<Pid>, asked: seq<PidId>, room: nat, read: PidId -> Option<seq<Byte>>)
    ensures var r := CurrentData(pids, asked, room, read); r.Positive? ==> Length(r.groups) <= room
  {
    BitmapsFit(pids, asked, |asked|);
    ValuesFit(pids, asked, read, |asked|);
  }

  lemma {:induction false} BitmapsFit(pids: seq<Pid>, asked: seq<PidId>, n: nat)
    requires n <= |asked|
    ensures CountAvailability(asked, n) == n ==> Length(Bitmaps(pids, asked, n)) <= Estimate(pids, asked, n)
  {
    hide Availability, WordBytes;
    if n > 0 {
      BitmapsFit(pids, asked, n - 1);
      LengthSnoc(Bitmaps(pids, asked, n - 1),
        Group(asked[n - 1], WordBytes(Availability(pids, Service01, asked[n - 1], |pids|))));
    }
  }

  lemma {:induction false} ValuesFit(pids: seq<Pid>, asked: seq<PidId>, read: PidId -> Option<seq<Byte>>, n: nat)
    requires n <= |asked|
    ensures CountAvailability(asked, n) == 0 && Values(pids, asked, read, n).Some? ==>
              Length(Values(pids, asked, read, n).value) == Estimate(pids, asked, n)
  {
    if n > 0 {
      ValuesFit(pids, asked, read, n - 1);
      var before := Values(pids, asked, read, n - 1);
      var k := LookUp(pids, Service01, asked[n - 1]);
      if before.Some? && k < |pids| && read(asked[n - 1]).Some? {
        LengthSnoc(before.value, Group(asked[n - 1], FitTo(read(asked[n - 1]).value, pids[k].size, ZeroByte())));
      }
    }
  }

  // ---------- What a tester is told about data PIDs ----------

  // Entry k is the one that answers for a PID: the first enabled one of service 0x01.
  ghost predicate Serves(pids: seq<Pid>, k: nat, id: PidId) {
    && k < |pids| && pids[k].id == id && pids[k].enabled && !pids[k].service.Service02?
    && forall j | 0 <= j < k :: !(pids[j].id == id && pids[j].enabled && !pids[j].service.Service02?)
  }

  ghost predicate Known(pids: seq<Pid>, id: PidId) { exists k :: Serves(pids, k, id) }

  // The places of the known ones among the first n PIDs asked for.
  ghost function KnownBefore(pids: seq<Pid>, asked: seq<PidId>, n: nat): set<nat> {
    set j: nat | j < n && j < |asked| && Known(pids, asked[j])
  }

  // The group holds the PID and the data that was read, byte by byte, filled up with zeros to its size.
  ghost predicate Carries(pids: seq<Pid>, id: PidId, read: PidId -> Option<seq<Byte>>, g: Group) {
    && g.pid == id && read(id).Some?
    && forall k: nat | Serves(pids, k, id) ::
         && |g.data| == pids[k].size
         && forall j | 0 <= j < |g.data| :: g.data[j] == if j < |read(id).value| then read(id).value[j] else ZeroByte()
  }

  // The known ones among the first n PIDs asked for, in their order, and nothing else.
  ghost predicate ToldInOrder(pids: seq<Pid>, asked: seq<PidId>, read: PidId -> Option<seq<Byte>>,
                              groups: seq<Group>, n: nat) {
    && |groups| == |KnownBefore(pids, asked, n)|
    && forall i: nat | i < n && i < |asked| && Known(pids, asked[i]) ::
         var c := |KnownBefore(pids, asked, i)|; c < |groups| && Carries(pids, asked[i], read, groups[c])
  }

  // One to six data PIDs in one request: the answer tells each known one, in the order asked for; it
  // is refused if one of them cannot be read, if none is known, or if no answer would fit, whatever the
  // data.
  lemma {:induction false} DataPidsAnswer(pids: seq<Pid>, asked: seq<PidId>, room: nat,
                                          read: PidId -> Option<seq<Byte>>)
    requires 1 <= |asked| <= 6 && forall i | 0 <= i < |asked| :: asked[i] % 0x20 != 0
    ensures match CurrentData(pids, asked, room, read)
            case Positive(groups) =>
              |groups| > 0 && ToldInOrder(pids, asked, read, groups, |asked|) && Length(groups) <= room
            case ConditionsNotCorrect => exists i :: 0 <= i < |asked| && Known(pids, asked[i]) && read(asked[i]).None?
            case RequestOutOfRange =>
              KnownBefore(pids, asked, |asked|) == {}
              || forall groups, other | ToldInOrder(pids, asked, other, groups, |asked|) :: Length(groups) > room
            case IncorrectLength => false
  {
    NoAvailability(asked, |asked|);
    ValuesTold(pids, asked, read, |asked|);
    hide Estimate, Values, CountAvailability, ToldInOrder, Length;
    ResponseFits(pids, asked, room, read);
    if Estimate(pids, asked, |asked|) > room {
      forall groups, other | ToldInOrder(pids, asked, other, groups, |asked|) ensures Length(groups) > room {
        ToldLength(pids, asked, other, groups, |asked|);
      }
    }
  }

  lemma {:induction false} NoAvailability(asked: seq<PidId>, n: nat)
    requires n <= |asked| && forall i | 0 <= i < |asked| :: asked[i] % 0x20 != 0
    ensures CountAvailability(asked, n) == 0
  {
    if n > 0 { NoAvailability(asked, n - 1); }
  }

  lemma {:induction false} LookUpServes(pids: seq<Pid>, id: PidId)
    ensures var k := LookUp(pids, Service01, id);
            (Known(pids, id) <==> k < |pids|) && (k < |pids| ==> Serves(pids, k, id))
            && forall j: nat | Serves(pids, j, id) :: j == k
  {
    hide LookUp;
    var k := LookUp(pids, Service01, id);
    forall j: nat | Serves(pids, j, id) ensures j == k {}
    if k < |pids| { assert Serves(pids, k, id); }
  }

  lemma {:induction false} OneMoreKnown(pids: seq<Pid>, asked: seq<PidId>, n: nat)
    requires 0 < n <= |asked|
    ensures |KnownBefore(pids, asked, n)|
         == |KnownBefore(pids, asked, n - 1)| + if Known(pids, asked[n - 1]) then 1 else 0
  {
    hide Known;
    assert KnownBefore(pids, asked, n)
        == KnownBefore(pids, asked, n - 1) + if Known(pids, asked[n - 1]) then {n - 1} else {};
  }

  lemma {:induction false} KnownGrows(pids: seq<Pid>, asked: seq<PidId>, i: nat, n: nat)
    requires i < n <= |asked| && Known(pids, asked[i])
    ensures |KnownBefore(pids, asked, i)| < |KnownBefore(pids, asked, n)|
    decreases n
  {
    hide Known, KnownBefore;
    OneMoreKnown(pids, asked, n);
    if i < n - 1 { KnownGrows(pids, asked, i, n - 1); }
  }

  lemma {:induction false} ValuesTold(pids: seq<Pid>, asked: seq<PidId>, read: PidId -> Option<seq<Byte>>, n: nat)
    requires n <= |asked|
    ensures var groups := Values(pids, asked, read, n);
            && (groups.Some? ==> ToldInOrder(pids, asked, read, groups.value, n)
                                 && |groups.value| == |KnownBefore(pids, asked, n)|)
            && (groups.None? ==> exists i :: 0 <= i < n && Known(pids, asked[i]) && read(asked[i]).None?)
  {
    if n > 0 {
      var id := asked[n - 1];
      ValuesTold(pids, asked, read, n - 1);
      LookUpServes(pids, id);
      OneMoreKnown(pids, asked, n);
      hide LookUp, Known, KnownBefore, Carries, ToldInOrder, FitTo, Serves;
      var before, k := Values(pids, asked, read, n - 1), LookUp(pids, Service01, id);
      if before.Some? && (k == |pids| || read(id).Some?) {
        var more := if k == |pids| then [] else [Group(id, FitTo(read(id).value, pids[k].size, ZeroByte()))];
        if k < |pids| { FittedCarries(pids, k, id, read); }
        OneMoreTold(pids, asked, read, before.value, more, n);
        assert k == |pids| ==> before.value + more == before.value;
        assert Values(pids, asked, read, n) == Some(before.value + more);
      }
    }
  }

  lemma {:induction false} FittedCarries(pids: seq<Pid>, k: nat, id: PidId, read: PidId -> Option<seq<Byte>>)
    requires Serves(pids, k, id) && read(id).Some?
    ensures Carries(pids, id, read, Group(id, FitTo(read(id).value, pids[k].size, ZeroByte())))
  {
  }

  lemma {:induction false} OneMoreTold(pids: seq<Pid>, asked: seq<PidId>, read: PidId -> Option<seq<Byte>>,
                                       groups: seq<Group>, more: seq<Group>, n: nat)
    requires 0 < n <= |asked| && ToldInOrder(pids, asked, read, groups, n - 1)
    requires if Known(pids, asked[n - 1]) then |more| == 1 && Carries(pids, asked[n - 1], read, more[0]) else more == []
    ensures ToldInOrder(pids, asked, read, groups + more, n)
  {
    hide Known, KnownBefore, Carries;
    OneMoreKnown(pids, asked, n);
  }

  lemma {:induction false} FrontTold(pids: seq<Pid>, asked: seq<PidId>, read: PidId -> Option<seq<Byte>>,
                                     groups: seq<Group>, n: nat)
    requires 0 < n <= |asked| && ToldInOrder(pids, asked, read, groups, n)
    ensures var c := |KnownBefore(pids, asked, n - 1)|;
            && |groups| == c + (if Known(pids, asked[n - 1]) then 1 else 0)
            && ToldInOrder(pids, asked, read, groups[..c], n - 1)
            && (Known(pids, asked[n - 1]) ==> Carries(pids, asked[n - 1], read, groups[c]))
  {
    hide Known, KnownBefore, Carries;
    OneMoreKnown(pids, asked, n);
    forall i: nat | i < n - 1 && Known(pids, asked[i])
      ensures |KnownBefore(pids, asked, i)| < |KnownBefore(pids, asked, n - 1)|
    {
      KnownGrows(pids, asked, i, n - 1);
    }
  }

  lemma {:induction false} ToldLength(pids: seq<Pid>, asked: seq<PidId>, read: PidId -> Option<seq<Byte>>,
                                      groups: seq<Group>, n: nat)
    requires n <= |asked| && ToldInOrder(pids, asked, read, groups, n) && CountAvailability(asked, n) == 0
    ensures Length(groups) == Estimate(pids, asked, n)
    decreases n
  {
    if n == 0 {
      assert KnownBefore(pids, asked, 0) == {};
    } else {
      hide Known, KnownBefore, Carries, Serves, LookUp, ToldInOrder;
      FrontTold(pids, asked, read, groups, n);
      LookUpServes(pids, asked[n - 1]);
      var c := |KnownBefore(pids, asked, n - 1)|;
      ToldLength(pids, asked, read, groups[..c], n - 1);
      if Known(pids, asked[n - 1]) {
        CarriesSize(pids, LookUp(pids, Service01, asked[n - 1]), asked[n - 1], read, groups[c]);
      } else {
        assert groups[..c] == groups;
      }
    }
  }

  lemma {:induction false} CarriesSize(pids: seq<Pid>, k: nat, id: PidId, read: PidId -> Option<seq<Byte>>, g: Group)
    requires Serves(pids, k, id) && Carries(pids, id, read, g)
    ensures |g.data| == pids[k].size
  {
  }

  // A request of no PID or of more than six, or one that mixes data PIDs with availability PIDs, has
  // the wrong length, unless it is refused as too long an answer before.
  lemma {:induction false} BadRequests(pids: seq<Pid>, asked: seq<PidId>, room: nat, read: PidId -> Option<seq<Byte>>,
                                       i: nat, j: nat)
    ensures var r := CurrentData(pids, asked, room, read);
            && (!(1 <= |asked| <= 6) ==> r == IncorrectLength)
            && (i < |asked| && j < |asked| && asked[i] % 0x20 == 0 && asked[j] % 0x20 != 0 ==>
                  r == IncorrectLength || r == RequestOutOfRange)
  {
    if i < |asked| && j < |asked| && asked[i] % 0x20 == 0 && asked[j] % 0x20 != 0 {
      CountsOne(asked, |asked|, i);
      MissesOne(asked, |asked|, j);
    }
  }

  lemma {:induction false} CountsOne(asked: seq<PidId>, n: nat, i: nat)
    requires i < n <= |asked| && asked[i] % 0x20 == 0
    ensures CountAvailability(asked, n) > 0
  {
    if i < n - 1 { CountsOne(asked, n - 1, i); }
  }

  lemma {:induction false} MissesOne(asked: seq<PidId>, n: nat, j: nat)
    requires j < n <= |asked| && asked[j] % 0x20 != 0
    ensures CountAvailability(asked, n) < n
  {
    if j < n - 1 { MissesOne(asked, n - 1, j); }
  }

  // ---------- A client that looks for PIDs ----------

  predicate MapBit(data: seq<Byte>, b: nat)
    requires |data| == 4 && b < 32
  {
    data[3 - b / 8][b % 8]
  }

  lemma {:induction false} WordBytesBits(w: Word, b: nat)
    requires b < 32
    ensures MapBit(WordBytes(w), b) == w[b]
  {
  }

  // Ask for the bitmap at first; note the 31 PIDs it speaks of; go on where its low bit says so.
  function Discover(pids: seq<Pid>, read: PidId -> Option<seq<Byte>>, first: PidId): set<nat>
    decreases 0x100 - first
  {
    match CurrentData(pids, [first], 6, read)
    case Positive(groups) =>
      var data := groups[0].data;
      if |data| != 4 then {}
      else
        (set b | 1 <= b < 32 && MapBit(data, b) :: first + GROUP - b)
        + if MapBit(data, 0) && first + GROUP <= 0xE0 then Discover(pids, read, first + GROUP) else {}
    case _ => {}
  }

  // What an availability PID is answered.
  lemma {:induction false} BitmapAnswer(pids: seq<Pid>, read: PidId -> Option<seq<Byte>>, first: PidId)
    requires IsAvailabilityPid(first)
    ensures var data := Availability(pids, Service01, first, |pids|);
            CurrentData(pids, [first], 6, read)
            == if data != Zero() || first == 0 then Positive([Group(first, WordBytes(data))]) else RequestOutOfRange
  {
    hide Availability, WordBytes;
    var asked := [first];
    assert Estimate(pids, asked, 0) == 1 && CountAvailability(asked, 0) == 0 && Bitmaps(pids, asked, 0) == [];
    assert Estimate(pids, asked, 1) == 6 && CountAvailability(asked, 1) == 1;
  }

  lemma {:induction false} DiscoverOneStep(pids: seq<Pid>, read: PidId -> Option<seq<Byte>>, first: PidId, id: nat)
    requires IsAvailabilityPid(first)
    ensures var map_ := Availability(pids, Service01, first, |pids|);
            id in Discover(pids, read, first) <==>
              && (map_ != Zero() || first == 0)
              && ((first < id < first + GROUP && map_[first + GROUP - id])
                  || (map_[0] && first + GROUP <= 0xE0 && id in Discover(pids, read, first + GROUP)))
  {
    hide Availability, CurrentData, WordBytes, MapBit;
    BitmapAnswer(pids, read, first);
    var map_ := Availability(pids, Service01, first, |pids|);
    var data := WordBytes(map_);
    WordBytesBits(map_, 0);
    if first < id < first + GROUP { WordBytesBits(map_, first + GROUP - id); }
    var heard := set b | 1 <= b < 32 && MapBit(data, b) :: first + GROUP - b;
    assert id in heard <==> first < id < first + GROUP && MapBit(data, first + GROUP - id) by {
      if first < id < first + GROUP { var b := first + GROUP - id; assert first + GROUP - b == id; }
    }
  }

  // From availability PID first on, the client finds exactly the configured PIDs that are not
  // availability PIDs themselves.
  lemma {:induction false} DiscoversFrom(pids: seq<Pid>, read: PidId -> Option<seq<Byte>>, first: PidId, id: nat)
    requires IsAvailabilityPid(first)
    ensures id in Discover(pids, read, first) <==> Has(pids, Service01, id) && id > first && id % GROUP != 0
    decreases 0x100 - first
  {
    hide Availability, Discover;
    DiscoverOneStep(pids, read, first, id);
    var map_ := Availability(pids, Service01, first, |pids|);
    BitmapMeans(pids, Service01, first, 0);
    if first < id < first + GROUP {
      BitmapMeans(pids, Service01, first, first + GROUP - id);
      assert id % GROUP != 0;
      if first + GROUP <= 0xE0 { DiscoversFrom(pids, read, first + GROUP, id); }
    } else {
      if first + GROUP <= 0xE0 { DiscoversFrom(pids, read, first + GROUP, id); }
    }
    if Has(pids, Service01, id) && id >= first + GROUP { assert map_[0] && map_ != Zero(); }
    if Has(pids, Service01, id) && first < id < first + GROUP { assert map_[first + GROUP - id] && map_ != Zero(); }
  }

  // Starting at 0x00, the client finds exactly the configured PIDs of the service that are not
  // multiples of 0x20.
  lemma {:induction false} ClientFindsExactlyTheConfigured(pids: seq<Pid>, read: PidId -> Option<seq<Byte>>)
    ensures forall id: nat :: id in Discover(pids, read, 0) <==> Has(pids, Service01, id) && id % GROUP != 0
  {
    forall id: nat ensures id in Discover(pids, read, 0) <==> Has(pids, Service01, id) && id % GROUP != 0 {
      DiscoversFrom(pids, read, 0, id);
    }
  }

  // A PID that was found can be read exactly when some configured entry of it is enabled: the
  // bitmaps do not look at that.
  lemma {:induction false} FoundButDisabled(pids: seq<Pid>, read: PidId -> Option<seq<Byte>>, id: PidId, room: nat)
    requires forall p :: p in pids ==> p.size + 2 <= room
    ensures id in Discover(pids, read, 0) && read(id).Some? ==>
              (CurrentData(pids, [id], room, read).Positive?
               <==> exists p :: p in pids && Offered(p, Service01) && p.id == id && p.enabled)
  {
    hide Discover;
    ClientFindsExactlyTheConfigured(pids, read);
    if id !in Discover(pids, read, 0) { return; }
    var asked := [id];
    var k := LookUp(pids, Service01, id);
    assert Estimate(pids, asked, 0) == 1 && CountAvailability(asked, 0) == 0
      && Values(pids, asked, read, 0) == Some([]);
    assert CountAvailability(asked, 1) == 0;
    if k < |pids| {
      assert pids[k] in pids;
      assert Estimate(pids, asked, 1) == 2 + pids[k].size;
    } else {
      assert Estimate(pids, asked, 1) == 1;
    }
    if p :| p in pids && Offered(p, Service01) && p.id == id && p.enabled {
      var j :| 0 <= j < |pids| && pids[j] == p;
    }
  }

  // ---------- The service as the program runs it ----------

  method FindPid(pids: seq<Pid>, service: Service, id: PidId) returns (k: nat)
    ensures k == LookUp(pids, service, id)
  {
    k := 0;
    while k < |pids|
      invariant k <= |pids| && LookUp(pids, service, id) == LookUp(pids, service, id, k)
    {
      if pids[k].id == id && (pids[k].service.Service0102? || service == pids[k].service) && pids[k].enabled { return; }
      k := k + 1;
    }
  }

  // DspObdRequestCurrentPowertrainDiagnosticData.
  method ServeCurrentData(pids: seq<Pid>, asked: seq<PidId>, room: nat, read: PidId -> Option<seq<Byte>>)
    returns (r: Answer)
    ensures r == CurrentData(pids, asked, room, read)
  {
    hide Availability, LookUp, WordBytes, FitTo;
    if !(OBD_REQ_MESSAGE_LEN_MIN <= 1 + |asked| <= OBD_REQ_MESSAGE_LEN_MAX) { return IncorrectLength; }
    var nofAvailability, length := Measure(pids, asked);
    if length > room { return RequestOutOfRange; }
    if nofAvailability == |asked| {
      r := CollectBitmaps(pids, asked);
    } else if nofAvailability == 0 {
      r := CollectValues(pids, asked, read);
    } else {
      r := IncorrectLength;
    }
  }

  method Measure(pids: seq<Pid>, asked: seq<PidId>) returns (nofAvailability: nat, length: nat)
    ensures nofAvailability == CountAvailability(asked, |asked|) && length == Estimate(pids, asked, |asked|)
  {
    hide LookUp;
    nofAvailability, length := 0, 1;
    var i := 0;
    while i < |asked|
      invariant i <= |asked| && nofAvailability == CountAvailability(asked, i) && length == Estimate(pids, asked, i)
    {
      if IsAvailabilityPid(asked[i]) {
        nofAvailability := nofAvailability + 1;
        length := length + 5;
      } else {
        var k := FindPid(pids, Service01, asked[i]);
        if k < |pids| { length := length + 1 + pids[k].size; }
      }
      i := i + 1;
    }
  }

  method CollectBitmaps(pids: seq<Pid>, asked: seq<PidId>) returns (r: Answer)
    requires |asked| >= 1
    ensures var groups := Bitmaps(pids, asked, |asked|);
            r == if groups == [] then RequestOutOfRange else Positive(groups)
  {
    hide Availability, WordBytes;
    var groups: seq<Group>, notFound, i := [], 0, 0;
    while i < |asked|
      invariant i <= |asked| && groups == Bitmaps(pids, asked, i) && notFound + |groups| == i
    {
      var data := SetAvailability(pids, Service01, asked[i]);
      if data != Zero() || asked[i] == 0 {
        groups := groups + [Group(asked[i], WordBytes(data))];
      } else {
        notFound := notFound + 1;
      }
      i := i + 1;
    }
    r := if notFound == |asked| then RequestOutOfRange else Positive(groups);
  }

  method CollectValues(pids: seq<Pid>, asked: seq<PidId>, read: PidId -> Option<seq<Byte>>) returns (r: Answer)
    requires |asked| >= 1
    ensures var groups := Values(pids, asked, read, |asked|);
            r == if groups.None? then ConditionsNotCorrect
                 else if groups.value == [] then RequestOutOfRange else Positive(groups.value)
  {
    hide LookUp, FitTo;
    var groups: seq<Group>, notFound, i := [], 0, 0;
    while i < |asked|
      invariant i <= |asked| && Values(pids, asked, read, i) == Some(groups) && notFound + |groups| == i
    {
      var k := FindPid(pids, Service01, asked[i]);
      if k < |pids| {
        var value := read(asked[i]);
        if value.None? {
          NoneStays(pids, asked, read, i + 1, |asked|);
          return ConditionsNotCorrect;
        }
        groups := groups + [Group(asked[i], FitTo(value.value, pids[k].size, ZeroByte()))];
      } else {
        notFound := notFound + 1;
      }
      i := i + 1;
    }
    r := if notFound == |asked| then RequestOutOfRange else Positive(groups);
  }

  lemma {:induction false} NoneStays(pids: seq<Pid>, asked: seq<PidId>, read: PidId -> Option<seq<Byte>>, n: nat,
                                     m: nat)
    requires n <= m <= |asked| && Values(pids, asked, read, n).None?
    ensures Values(pids, asked, read, m).None?
    decreases m
  {
    if n < m { NoneStays(pids, asked, read, n, m - 1); }
  }
}
