/** The DTC filter of the DEM, its iteration, and the ReadDTCInformation reports built on it
    (section 11.3 of ISO 14229-1:2013). */
module DtcFilter {
  import opened Prelude

  datatype Kind = AllDtcs | EmissionRelated | OtherKind

  datatype Origin = Primary | Mirror | Permanent | Secondary | OtherOrigin

  datatype Format = Uds | Obd | OtherFormat

  datatype Choice = Yes | No | OtherChoice

  datatype Settings = Settings(statusMask: bv8, kind: Kind, format: Format, origin: Origin, withSeverity: Choice,
                               severityMask: bv8, forFdc: Choice)

  const DEM_DTC_STATUS_MASK_ALL: bv8 := 0
  const SEVERITIES: bv8 := 0xE0

  datatype Dtc = Dtc(uds: nat, obd: nat)

  // matches: whether a DTC of the table, by its index, passes a filter, and its status then.
  // The statuses do not change while a filter is walked through.
  datatype World = World(table: seq<Dtc>, availabilityMask: bv8, matches: (Settings, nat) -> Option<bv8>) {
    predicate Valid() { |table| < 0x1_0000 }
  }

  // dtcFilter: the accepted settings and the cursor.
  datatype Filter = Filter(settings: Settings, index: nat)

  // ---------- Setting, counting, stepping ----------

  predicate Acceptable(w: World, s: Settings) {
    && (s.kind.AllDtcs? || s.kind.EmissionRelated?)
    && (s.origin.Secondary? || s.origin.Primary? || s.origin.Permanent?)
    && (s.withSeverity.No? || (s.withSeverity.Yes? && s.severityMask & !SEVERITIES == 0))
    && !s.forFdc.OtherChoice?
    && !s.format.OtherFormat?
    && (s.statusMask & w.availabilityMask != 0 || s.statusMask == DEM_DTC_STATUS_MASK_ALL)
  }

  function SetFilter(w: World, f: Filter, s: Settings): (r: (Filter, bool)) {
    if Acceptable(w, s) then (Filter(s.(statusMask := s.statusMask & w.availabilityMask), 0), true) else (f, false)
  }

  // Which filters are accepted; one that is refused leaves the filter as it was.
  lemma {:induction false} SetExactly(w: World, f: Filter, s: Settings)
    ensures var r := SetFilter(w, f, s);
            && (r.1 <==>
                  && !s.kind.OtherKind? && !s.origin.Mirror? && !s.origin.OtherOrigin? && !s.format.OtherFormat?
                  && !s.forFdc.OtherChoice? && !s.withSeverity.OtherChoice?
                  && (s.withSeverity.Yes? ==> s.severityMask & 0x1F == 0)
                  && (s.statusMask == 0 || s.statusMask & w.availabilityMask != 0))
            && (r.1 ==> r.0.index == 0 && r.0.settings == s.(statusMask := s.statusMask & w.availabilityMask))
            && (!r.1 ==> r.0 == f)
  {
    assert !SEVERITIES == 0x1F;
  }

  // How many of the first n DTCs pass the filter.
  function Count(w: World, s: Settings, n: nat): (c: nat)
    requires n <= |w.table|
    ensures c <= n
  {
    if n == 0 then 0 else Count(w, s, n - 1) + if w.matches(s, n - 1).Some? then 1 else 0
  }

  function FirstFrom(w: World, s: Settings, i: nat): (k: nat)
    requires i <= |w.table|
    ensures i <= k <= |w.table|
    ensures k < |w.table| ==> w.matches(s, k).Some?
    ensures forall j | i <= j < k :: w.matches(s, j).None?
    decreases |w.table| - i
  {
    if i == |w.table| || w.matches(s, i).Some? then i else FirstFrom(w, s, i + 1)
  }

  datatype Record = Record(dtc: nat, status: bv8)

  function ToObdFormat(dtc: nat): nat { dtc * 0x100 % 0x1_0000_0000 }

  function RecordAt(w: World, s: Settings, k: nat): Record
    requires k < |w.table| && w.matches(s, k).Some?
  {
    Record(if s.format.Uds? then w.table[k].uds else ToObdFormat(w.table[k].obd), w.matches(s, k).value)
  }

  // Dem_GetNextFilteredDTC: the next match and the cursor behind it; at the end, the cursor
  // goes back to the start.
  function NextDtc(w: World, f: Filter): (r: (Filter, Option<Record>))
    requires f.index <= |w.table|
    ensures r.0.index <= |w.table| && r.0.settings == f.settings
  {
    var k := FirstFrom(w, f.settings, f.index);
    if k < |w.table| then (f.(index := k + 1), Some(RecordAt(w, f.settings, k))) else (f.(index := 0), None)
  }

  // ---------- What an iteration yields ----------

  // All matching DTCs among the first n, in table order.
  function Matching(w: World, s: Settings, n: nat): (r: seq<Record>)
    requires n <= |w.table|
    ensures |r| == Count(w, s, n)
  {
    if n == 0 then []
    else Matching(w, s, n - 1) + if w.matches(s, n - 1).Some? then [RecordAt(w, s, n - 1)] else []
  }

  lemma {:induction false} MatchingSkips(w: World, s: Settings, i: nat, k: nat)
    requires i <= k <= |w.table| && forall j | i <= j < k :: w.matches(s, j).None?
    ensures Matching(w, s, k) == Matching(w, s, i)
    decreases k
  {
    if i < k { MatchingSkips(w, s, i, k - 1); }
  }

  // The filter after n calls.
  function After(w: World, f: Filter, n: nat): (r: Filter)
    requires f.index <= |w.table|
    ensures r.index <= |w.table| && r.settings == f.settings
  {
    if n == 0 then f else NextDtc(w, After(w, f, n - 1)).0
  }

  // What the n-th call yields.
  function Yield(w: World, f: Filter, n: nat): Option<Record>
    requires f.index <= |w.table|
  {
    NextDtc(w, After(w, f, n)).1
  }

  // A call with n matches behind the cursor yields match number n, or the end.
  lemma {:induction false} OneCall(w: World, f: Filter, n: nat)
    requires f.index <= |w.table| && n <= Count(w, f.settings, |w.table|)
    requires Matching(w, f.settings, f.index) == Matching(w, f.settings, |w.table|)[..n]
    ensures var all := Matching(w, f.settings, |w.table|);
            var r := NextDtc(w, f);
            && (n < |all| ==> r.1 == Some(all[n]) && Matching(w, f.settings, r.0.index) == all[..n + 1])
            && (n == |all| ==> r == (f.(index := 0), None))
  {
    hide Matching, FirstFrom, RecordAt;
    NextIsTheNextMatch(w, f.settings, f.index, n);
  }

  // Of one round: the n-th call yields the n-th match, in table order, and the call after the
  // last one reports the end and starts over.
  lemma {:induction false} OneRound(w: World, f: Filter, n: nat)
    requires f.index == 0 && n <= Count(w, f.settings, |w.table|)
    ensures var all := Matching(w, f.settings, |w.table|);
            && Matching(w, f.settings, After(w, f, n).index) == all[..n]
            && (n < |all| ==> Yield(w, f, n) == Some(all[n]))
            && (n == |all| ==> Yield(w, f, n) == None && After(w, f, n + 1) == f)
  {
    hide NextDtc;
    assert Matching(w, f.settings, 0) == [];
    hide Matching, Count;
    if n > 0 {
      OneRound(w, f, n - 1);
      OneCall(w, After(w, f, n - 1), n - 1);
    }
    OneCall(w, After(w, f, n), n);
  }

  // The first match behind i is number n, if n of them lie before i.
  lemma {:induction false} NextIsTheNextMatch(w: World, s: Settings, i: nat, n: nat)
    requires i <= |w.table| && n <= Count(w, s, |w.table|)
    requires Matching(w, s, i) == Matching(w, s, |w.table|)[..n]
    ensures var all := Matching(w, s, |w.table|);
            var k := FirstFrom(w, s, i);
            && (k < |w.table| <==> n < |all|)
            && (k < |w.table| ==> RecordAt(w, s, k) == all[n] && Matching(w, s, k + 1) == all[..n + 1])
  {
    hide FirstFrom, RecordAt, Count;
    var k := FirstFrom(w, s, i);
    MatchingSkips(w, s, i, k);
    if k < |w.table| {
      MatchingIsPrefix(w, s, k + 1, |w.table|);
      assert Matching(w, s, k + 1) == Matching(w, s, k) + [RecordAt(w, s, k)];
    }
  }

  lemma {:induction false} MatchingIsPrefix(w: World, s: Settings, i: nat, k: nat)
    requires i <= k <= |w.table|
    ensures Matching(w, s, i) <= Matching(w, s, k)
    decreases k
  {
    if i < k { MatchingIsPrefix(w, s, i, k - 1); }
  }

  // For ever: the iteration goes round and round through the matches, with one end report per
  // round.
  lemma {:induction false} IterationIsPeriodic(w: World, f: Filter, rounds: nat, n: nat)
    requires f.index == 0 && n <= Count(w, f.settings, |w.table|)
    ensures var all := Matching(w, f.settings, |w.table|);
            var call := rounds * (|all| + 1) + n;
            && (n < |all| ==> Yield(w, f, call) == Some(all[n]))
            && (n == |all| ==> Yield(w, f, call) == None)
  {
    hide NextDtc, Matching;
    var length := |Matching(w, f.settings, |w.table|)| + 1;
    OneRound(w, f, n);
    OneRound(w, f, length - 1);
    RoundsReturn(w, f, rounds, length);
    AfterAdds(w, f, rounds * length, n);
  }

  lemma {:induction false} AfterAdds(w: World, f: Filter, a: nat, b: nat)
    requires f.index <= |w.table|
    ensures After(w, f, a + b) == After(w, After(w, f, a), b)
  {
    hide NextDtc;
    if b > 0 { AfterAdds(w, f, a, b - 1); }
  }

  lemma {:induction false} RoundsReturn(w: World, f: Filter, rounds: nat, length: nat)
    requires f.index <= |w.table| && After(w, f, length) == f
    ensures rounds * length >= 0 && After(w, f, rounds * length) == f
  {
    hide NextDtc;
    if rounds == 0 {
      assert rounds * length == 0;
    } else {
      RoundsReturn(w, f, rounds - 1, length);
      assert rounds * length == (rounds - 1) * length + length;
      AfterAdds(w, f, (rounds - 1) * length, length);
    }
  }

  // Each matching DTC of the table is there, once, in table order.
  lemma {:induction false} MatchingIsComplete(w: World, s: Settings, k: nat, n: nat)
    requires k < n <= |w.table| && w.matches(s, k).Some?
    ensures Count(w, s, k) < Count(w, s, n) && Matching(w, s, n)[Count(w, s, k)] == RecordAt(w, s, k)
    decreases n
  {
    if k < n - 1 { MatchingIsComplete(w, s, k, n - 1); }
  }

  // ---------- The reports ----------

  datatype Code = Positive | RequestOutOfRange | ResponseTooLong

  // The response from its second byte on; length counts the service identifier too.
  datatype Report = Report(f: Filter, code: Code, bytes: seq<bv8>, length: nat)

  function DefaultSettings(mask: bv8, kind: Kind, origin: Origin): Settings {
    Settings(mask, kind, Uds, origin, No, 0, No)
  }

  // sub: the report type 0x02, 0x0A, 0x0F, 0x13 or 0x15.
  function ListSettings(sub: bv8, mask: bv8): Option<Settings> {
    match sub
    case 0x02 => Some(DefaultSettings(mask, AllDtcs, Primary))
    case 0x0A => Some(DefaultSettings(DEM_DTC_STATUS_MASK_ALL, AllDtcs, Primary))
    case 0x0F => Some(DefaultSettings(mask, AllDtcs, Mirror))
    case 0x13 => Some(DefaultSettings(mask, EmissionRelated, Primary))
    case 0x15 => Some(DefaultSettings(DEM_DTC_STATUS_MASK_ALL, AllDtcs, Permanent))
    case _ => None
  }

  function RecordBytes(r: Record): (b: seq<bv8>)
    ensures |b| == 4
  {
    [(r.dtc / 0x1_0000 % 0x100) as bv8, (r.dtc / 0x100 % 0x100) as bv8, (r.dtc % 0x100) as bv8, r.status]
  }

  function Flatten(rs: seq<Record>): (b: seq<bv8>)
    ensures |b| == 4 * |rs|
  {
    if rs == [] then [] else Flatten(rs[..|rs| - 1]) + RecordBytes(rs[|rs| - 1])
  }

  // room: the size of the response buffer.
  function ListDtcs(w: World, f: Filter, sub: bv8, mask: bv8, room: nat): Report {
    if sub != 0x0A && sub != 0x15 && mask == 0 then Report(f, Positive, [sub, w.availabilityMask], 3)
    else ListFiltered(w, f, ListSettings(sub, mask), [sub, w.availabilityMask], room)
  }

  function ListFiltered(w: World, f: Filter, s: Option<Settings>, head: seq<bv8>, room: nat): Report {
    if s.None? || !Acceptable(w, s.value) then Report(f, RequestOutOfRange, [], 0)
    else
      var g := SetFilter(w, f, s.value).0;
      var count := Count(w, g.settings, |w.table|);
      if w.availabilityMask == 0 then Report(g, Positive, head, 3)
      else if count * 4 + 3 > room then Report(g, ResponseTooLong, head, 3)
      else Report(g, Positive, head + Flatten(Matching(w, g.settings, |w.table|)), 3 + 4 * count)
  }

  predicate Listed(sub: bv8, mask: bv8, w: World, r: Report) {
    r.code.Positive? && w.availabilityMask != 0 && !(sub != 0x0A && sub != 0x15 && mask == 0)
  }

  // An accepted list of DTCs has exactly 3 + 4 * count bytes, fits the buffer that was checked,
  // tells each matching DTC once, and leaves the cursor at the start.
  lemma {:induction false} ListIsExact(w: World, f: Filter, sub: bv8, mask: bv8, room: nat)
    requires f.index == 0
    ensures var r := ListDtcs(w, f, sub, mask, room);
            && r.f.index == 0
            && (r.code.Positive? ==> |r.bytes| + 1 == r.length)
            && (Listed(sub, mask, w, r) ==>
                  && r.length == 3 + 4 * Count(w, r.f.settings, |w.table|) <= room
                  && forall i | 0 <= i < Count(w, r.f.settings, |w.table|) ::
                       r.bytes[2 + 4 * i..6 + 4 * i] == RecordBytes(Matching(w, r.f.settings, |w.table|)[i]))
  {
    hide ListDtcs, RecordBytes, Flatten, Matching, Count, Listed;
    ListLength(w, f, sub, mask, room);
    var r := ListDtcs(w, f, sub, mask, room);
    RecordsInPlace([sub, w.availabilityMask], Matching(w, r.f.settings, |w.table|));
  }

  lemma {:induction false} ListLength(w: World, f: Filter, sub: bv8, mask: bv8, room: nat)
    requires f.index == 0
    ensures var r := ListDtcs(w, f, sub, mask, room);
            && r.f.index == 0
            && (r.code.Positive? ==> |r.bytes| + 1 == r.length)
            && (Listed(sub, mask, w, r) ==>
                  && r.length == 3 + 4 * Count(w, r.f.settings, |w.table|) <= room
                  && r.bytes == [sub, w.availabilityMask] + Flatten(Matching(w, r.f.settings, |w.table|)))
  {
    hide Acceptable, Flatten, Matching, Count, ListSettings;
  }

  lemma {:induction false} RecordsInPlace(head: seq<bv8>, rs: seq<Record>)
    requires |head| == 2
    ensures forall i | 0 <= i < |rs| :: (head + Flatten(rs))[2 + 4 * i..6 + 4 * i] == RecordBytes(rs[i])
  {
    forall i | 0 <= i < |rs| ensures (head + Flatten(rs))[2 + 4 * i..6 + 4 * i] == RecordBytes(rs[i]) {
      FlattenAt(rs, i);
      hide Flatten, RecordBytes;
      assert (head + Flatten(rs))[2 + 4 * i..6 + 4 * i] == Flatten(rs)[4 * i..4 * i + 4];
    }
  }

  lemma {:induction false} FlattenAt(rs: seq<Record>, i: nat)
    requires i < |rs|
    ensures Flatten(rs)[4 * i..4 * i + 4] == RecordBytes(rs[i])
  {
    hide RecordBytes;
    var n := |rs| - 1;
    if i < n {
      FlattenAt(rs[..n], i);
      assert Flatten(rs)[4 * i..4 * i + 4] == Flatten(rs[..n])[4 * i..4 * i + 4];
    }
  }

  // Which lists are refused: those with a mask no bit of which is supported, and every list
  // from the mirror memory, though its report type is one of those that are handled.
  lemma {:induction false} RefusedExactly(w: World, f: Filter, sub: bv8, mask: bv8, room: nat)
    requires sub in {0x02, 0x0A, 0x0F, 0x13, 0x15}
    ensures ListDtcs(w, f, sub, mask, room).code.RequestOutOfRange?
            <==> mask != 0 && (sub == 0x0F || (sub in {0x02, 0x13} && mask & w.availabilityMask == 0))
  {
    hide Count, Matching, Flatten, Acceptable;
    DefaultAcceptable(w, mask, AllDtcs, Primary);
    DefaultAcceptable(w, mask, AllDtcs, Mirror);
    DefaultAcceptable(w, mask, EmissionRelated, Primary);
    DefaultAcceptable(w, DEM_DTC_STATUS_MASK_ALL, AllDtcs, Primary);
    DefaultAcceptable(w, DEM_DTC_STATUS_MASK_ALL, AllDtcs, Permanent);
  }

  // ---------- What a tester reads off a list ----------

  // The indices of the DTCs in front of n that pass the filter.
  ghost function Passing(w: World, s: Settings, n: nat): set<nat> {
    set k: nat | k < n && k < |w.table| && w.matches(s, k).Some?
  }

  lemma {:induction false} CountIsPassing(w: World, s: Settings, n: nat)
    requires n <= |w.table|
    ensures Count(w, s, n) == |Passing(w, s, n)|
  {
    if n == 0 {
      assert Passing(w, s, 0) == {};
    } else {
      CountIsPassing(w, s, n - 1);
      assert Passing(w, s, n) == Passing(w, s, n - 1) + if w.matches(s, n - 1).Some? then {n - 1} else {};
    }
  }

  // The next calls after the filter has been set: the one that is as many calls away as DTCs pass in
  // front of DTC k tells DTC k. An OBD number is moved up by one byte.
  lemma {:induction false} EachDtcIsTold(w: World, f: Filter, k: nat)
    requires f.index == 0 && k < |w.table| && w.matches(f.settings, k).Some?
    ensures Yield(w, f, |Passing(w, f.settings, k)|)
         == Some(Record(if f.settings.format.Uds? then w.table[k].uds else w.table[k].obd * 0x100 % 0x1_0000_0000,
                        w.matches(f.settings, k).value))
  {
    CountIsPassing(w, f.settings, k);
    MatchingIsComplete(w, f.settings, k, |w.table|);
    OneRound(w, f, Count(w, f.settings, k));
    hide Matching, Count, Yield, Passing;
  }

  // n is written with the three digits x, y and z, each below 256.
  predicate Digits(n: nat, x: nat, y: nat, z: nat) {
    x < 0x100 && y < 0x100 && z < 0x100 && n == x * 0x1_0000 + y * 0x100 + z
  }

  // A record as a tester reads it: a 24-bit number, the most significant byte first, and the status.
  ghost predicate Tells(b: seq<bv8>, dtc: nat, status: bv8) {
    exists x, y, z :: Digits(dtc % 0x100_0000, x, y, z) && b == [x as bv8, y as bv8, z as bv8, status]
  }

  lemma {:induction false} RecordTells(r: Record)
    ensures Tells(RecordBytes(r), r.dtc, r.status)
  {
    ThreeBytes(r.dtc);
    assert Digits(r.dtc % 0x100_0000, r.dtc / 0x1_0000 % 0x100, r.dtc / 0x100 % 0x100, r.dtc % 0x100);
  }

  lemma {:induction false} ThreeBytes(n: nat)
    ensures n / 0x1_0000 % 0x100 * 0x1_0000 + n / 0x100 % 0x100 * 0x100 + n % 0x100 == n % 0x100_0000
  {
    var q1 := n / 0x100;
    var q2 := q1 / 0x100;
    assert n / 0x1_0000 == q2;
    assert n / 0x100_0000 == q2 / 0x100;
  }

  // Which DTCs a report of each type is about: all, or the emission-related ones; the supported ones
  // of the permanent memory for 0x15, else of the primary memory; those with a status bit of the mask,
  // but for 0x0A and 0x15.
  function ReportFilter(w: World, sub: bv8, mask: bv8): Settings {
    Settings(if sub == 0x0A || sub == 0x15 then 0 else mask & w.availabilityMask,
             if sub == 0x12 || sub == 0x13 then EmissionRelated else AllDtcs,
             Uds, if sub == 0x15 then Permanent else Primary, No, 0, No)
  }

  // DTC k is told in its place: behind the two bytes of the head and as many records as pass before it.
  ghost predicate ToldAt(w: World, s: Settings, bytes: seq<bv8>, k: nat) {
    var i := 2 + 4 * |Passing(w, s, k)|;
    && k < |w.table| && w.matches(s, k).Some? && i + 4 <= |bytes|
    && Tells(bytes[i..i + 4], w.table[k].uds, w.matches(s, k).value)
  }

  // A list, from the tester's side: the report type, the supported status bits, and for each DTC that
  // passes the filter of the type, in table order and without a gap, its number and its status.
  lemma {:induction false} ListTells(w: World, f: Filter, sub: bv8, mask: bv8, room: nat)
    requires f.index == 0 && sub in {0x02, 0x0A, 0x13, 0x15}
    ensures var r := ListDtcs(w, f, sub, mask, room);
            var s := ReportFilter(w, sub, mask);
            var shown := if w.availabilityMask == 0 || (mask == 0 && sub in {0x02, 0x13}) then 0
                         else |Passing(w, s, |w.table|)|;
            && (r.code.Positive? ==>
                  && |r.bytes| == 2 + 4 * shown && r.bytes[0] == sub && r.bytes[1] == w.availabilityMask
                  && (shown > 0 ==> forall k: nat | k < |w.table| && w.matches(s, k).Some? :: ToldAt(w, s, r.bytes, k)))
            && (r.code.ResponseTooLong? ==>
                  3 + 4 * |Passing(w, s, |w.table|)| > room && r.bytes == [sub, w.availabilityMask] && r.length == 3)
            && (r.code.RequestOutOfRange? ==> r == Report(f, RequestOutOfRange, [], 0))
  {
    var r := ListDtcs(w, f, sub, mask, room);
    var s := ReportFilter(w, sub, mask);
    CountIsPassing(w, s, |w.table|);
    ListFilterIs(w, f, sub, mask, room);
    ListLength(w, f, sub, mask, room);
    hide ListDtcs, ListFiltered, ListSettings, Flatten, Matching, Count, Passing, ToldAt, ReportFilter, RecordBytes;
    if Listed(sub, mask, w, r) { AllTold(w, s, [sub, w.availabilityMask]); }
  }

  lemma {:induction false} AllTold(w: World, s: Settings, head: seq<bv8>)
    requires |head| == 2 && s.format.Uds?
    ensures forall k: nat | k < |w.table| && w.matches(s, k).Some? ::
              ToldAt(w, s, head + Flatten(Matching(w, s, |w.table|)), k)
  {
    hide Flatten, Matching, Count, ToldAt, RecordBytes;
    RecordsInPlace(head, Matching(w, s, |w.table|));
    forall k: nat | k < |w.table| && w.matches(s, k).Some?
      ensures ToldAt(w, s, head + Flatten(Matching(w, s, |w.table|)), k)
    {
      PlaceTells(w, s, head + Flatten(Matching(w, s, |w.table|)), k);
    }
  }

  lemma {:induction false} PlaceTells(w: World, s: Settings, bytes: seq<bv8>, k: nat)
    requires s.format.Uds? && |bytes| == 2 + 4 * Count(w, s, |w.table|) && k < |w.table| && w.matches(s, k).Some?
    requires forall i | 0 <= i < Count(w, s, |w.table|) ::
               bytes[2 + 4 * i..6 + 4 * i] == RecordBytes(Matching(w, s, |w.table|)[i])
    ensures ToldAt(w, s, bytes, k)
  {
    hide Matching, Count, Passing, Tells, RecordBytes;
    CountIsPassing(w, s, k);
    MatchingIsComplete(w, s, k, |w.table|);
    RecordInPlaceTells(w, s, bytes, k, Count(w, s, k));
  }

  lemma {:induction false} RecordInPlaceTells(w: World, s: Settings, bytes: seq<bv8>, k: nat, i: nat)
    requires s.format.Uds? && k < |w.table| && w.matches(s, k).Some? && |bytes| >= 6 + 4 * i
    requires bytes[2 + 4 * i..6 + 4 * i] == RecordBytes(RecordAt(w, s, k)) && i == |Passing(w, s, k)|
    ensures ToldAt(w, s, bytes, k)
  {
    hide Tells, RecordBytes, Passing, Digits;
    RecordTells(RecordAt(w, s, k));
    assert 2 + 4 * i + 4 == 6 + 4 * i;
  }

  lemma {:induction false} ListFilterIs(w: World, f: Filter, sub: bv8, mask: bv8, room: nat)
    requires f.index == 0 && sub in {0x02, 0x0A, 0x13, 0x15}
    ensures var r := ListDtcs(w, f, sub, mask, room);
            var s := ReportFilter(w, sub, mask);
            && (Listed(sub, mask, w, r) ==> r.f.settings == s)
            && (r.code.Positive? && !Listed(sub, mask, w, r) ==> r.bytes == [sub, w.availabilityMask])
            && (r.code.ResponseTooLong? ==>
                  3 + 4 * Count(w, s, |w.table|) > room && r.bytes == [sub, w.availabilityMask] && r.length == 3)
            && (r.code.RequestOutOfRange? ==> r == Report(f, RequestOutOfRange, [], 0))
  {
    hide Acceptable, Flatten, Matching, Count;
    assert 0 & w.availabilityMask == 0;
  }

  // The number reported is that of the DTCs of the list of the same kind.
  lemma {:induction false} NumberTells(w: World, f: Filter, sub: bv8, mask: bv8)
    requires sub in {0x01, 0x12}
    ensures var r := NumberOfDtcs(w, f, sub, mask);
            && (r.code.Positive? <==> mask == 0 || mask & w.availabilityMask != 0)
            && (!r.code.Positive? ==> r == NumberReport(f, RequestOutOfRange, 0))
            && (r.code.Positive? ==>
                  r.count == if mask == 0 then 0 else |Passing(w, ReportFilter(w, sub, mask), |w.table|)|)
  {
    CountIsPassing(w, ReportFilter(w, sub, mask), |w.table|);
    DefaultAcceptable(w, mask, AllDtcs, Primary);
    DefaultAcceptable(w, mask, EmissionRelated, Primary);
    hide Acceptable, Count, Passing;
  }

  // sub: the report type 0x01, 0x11 or 0x12.
  function NumberSettings(sub: bv8, mask: bv8): Option<Settings> {
    match sub
    case 0x01 => Some(DefaultSettings(mask, AllDtcs, Primary))
    case 0x11 => Some(DefaultSettings(mask, AllDtcs, Mirror))
    case 0x12 => Some(DefaultSettings(mask, EmissionRelated, Primary))
    case _ => None
  }

  datatype NumberReport = NumberReport(f: Filter, code: Code, count: nat)

  function NumberOfDtcs(w: World, f: Filter, sub: bv8, mask: bv8): NumberReport {
    if mask == 0 then NumberReport(f, Positive, 0) else NumberFiltered(w, f, NumberSettings(sub, mask))
  }

  function NumberFiltered(w: World, f: Filter, s: Option<Settings>): NumberReport {
    if s.None? || !Acceptable(w, s.value) then NumberReport(f, RequestOutOfRange, 0)
    else
      var g := SetFilter(w, f, s.value).0;
      NumberReport(g, Positive, Count(w, g.settings, |w.table|))
  }

  // The number a tester is told and the list it is told then agree, for every mask: both are
  // refused, or the list has as many records as announced unless it does not fit.
  lemma {:induction false} NumberAndListAgree(w: World, f: Filter, sub: bv8, mask: bv8, room: nat)
    requires f.index == 0 && sub in {0x01, 0x11, 0x12}
    ensures var listSub: bv8 := if sub == 0x01 then 0x02 else if sub == 0x11 then 0x0F else 0x13;
            var number := NumberOfDtcs(w, f, sub, mask);
            var list := ListDtcs(w, number.f, listSub, mask, room);
            && (number.code.RequestOutOfRange? <==> list.code.RequestOutOfRange?)
            && (list.code.Positive? ==> list.length == 3 + 4 * number.count)
            && (list.code.ResponseTooLong? <==> mask != 0 && number.code.Positive? && 3 + 4 * number.count > room)
  {
    hide ListFiltered, NumberFiltered;
    var listSub: bv8 := if sub == 0x01 then 0x02 else if sub == 0x11 then 0x0F else 0x13;
    if mask != 0 {
      assert NumberSettings(sub, mask) == ListSettings(listSub, mask);
      FilteredAgree(w, f, NumberSettings(sub, mask).value, [listSub, w.availabilityMask], room);
    }
  }

  lemma {:induction false} FilteredAgree(w: World, f: Filter, s: Settings, head: seq<bv8>, room: nat)
    requires s.statusMask != 0 && |head| == 2
    ensures var number := NumberFiltered(w, f, Some(s));
            var list := ListFiltered(w, number.f, Some(s), head, room);
            && (number.code.Positive? || number.code.RequestOutOfRange?)
            && (number.code.RequestOutOfRange? <==> list.code.RequestOutOfRange?)
            && (list.code.Positive? ==> list.length == 3 + 4 * number.count)
            && (list.code.ResponseTooLong? <==> number.code.Positive? && 3 + 4 * number.count > room)
  {
    hide Count, Matching, Flatten;
    if w.availabilityMask == 0 { assert s.statusMask & w.availabilityMask == 0; }
  }

  lemma {:induction false} DefaultAcceptable(w: World, mask: bv8, kind: Kind, origin: Origin)
    requires !kind.OtherKind?
    ensures Acceptable(w, DefaultSettings(mask, kind, origin))
            <==> !origin.Mirror? && !origin.OtherOrigin? && (mask & w.availabilityMask != 0 || mask == 0)
  {
  }

  // ---------- The filter and its reports as the program runs them ----------

  class FilterServer {
    const w: World
    var settings: Settings
    var index: nat

    ghost function State(): Filter
      reads this
    {
      Filter(settings, index)
    }

    ghost predicate Valid()
      reads this
    {
      w.Valid() && index <= |w.table|
    }

    // Dem_Init.
    constructor (w: World)
      requires w.Valid()
      ensures this.w == w && Valid() && State() == Filter(DefaultSettings(0, AllDtcs, Primary), 0)
    {
      this.w := w;
      settings, index := DefaultSettings(0, AllDtcs, Primary), 0;
    }

    // Dem_SetDTCFilter.
    method Set(s: Settings) returns (accepted: bool)
      requires Valid()
      modifies this
      ensures Valid() && (State(), accepted) == SetFilter(w, old(State()), s)
    {
      if !s.kind.AllDtcs? && !s.kind.EmissionRelated? { return false; }
      if !(s.origin.Secondary? || s.origin.Primary? || s.origin.Permanent?) { return false; }
      if !(s.withSeverity.No? || (s.withSeverity.Yes? && s.severityMask & !SEVERITIES == 0)) { return false; }
      if s.forFdc.OtherChoice? { return false; }
      if s.format.OtherFormat? { return false; }
      if s.statusMask & w.availabilityMask == 0 && s.statusMask != DEM_DTC_STATUS_MASK_ALL { return false; }
      assert Acceptable(w, s);
      hide Acceptable;
      settings := s.(statusMask := s.statusMask & w.availabilityMask);
      index := 0;
      accepted := true;
    }

    // Dem_GetNumberOfFilteredDtc.
    method Number() returns (n: uint16)
      requires Valid()
      ensures n as int == Count(w, settings, |w.table|)
    {
      n := 0;
      var i := 0;
      while i < |w.table|
        invariant i <= |w.table| && n as int == Count(w, settings, i)
      {
        if w.matches(settings, i).Some? { n := n + 1; }
        i := i + 1;
      }
    }

    // Dem_GetNextFilteredDTC.
    method Next() returns (r: Option<Record>)
      requires Valid()
      modifies this`index
      ensures Valid() && (State(), r) == NextDtc(w, old(State()))
    {
      r := None;
      while r.None? && index < |w.table|
        invariant Valid() && index >= old(index)
        invariant r.None? ==> FirstFrom(w, settings, old(index)) == FirstFrom(w, settings, index)
        invariant r.Some? ==> (State(), r) == NextDtc(w, old(State()))
        decreases |w.table| - index
      {
        var status := w.matches(settings, index);
        if status.Some? {
          var dtc := if settings.format.Uds? then w.table[index].uds else ToObdFormat(w.table[index].obd);
          r := Some(Record(dtc, status.value));
        }
        index := index + 1;
      }
      if r.None? { index := 0; }
    }

    // udsReadDtcInfoSub_0x02_0x0A_0x0F_0x13_0x15.
    method List(sub: bv8, mask: bv8, room: nat) returns (code: Code, bytes: seq<bv8>, length: nat)
      requires Valid()
      modifies this
      ensures Valid() && Report(State(), code, bytes, length) == ListDtcs(w, old(State()), sub, mask, room)
    {
      hide Acceptable, Count;
      if sub != 0x0A && sub != 0x15 && mask == 0 { return Positive, [sub, w.availabilityMask], 3; }
      var s := ListSettings(sub, mask);
      var accepted := false;
      if s.Some? { accepted := Set(s.value); }
      if !accepted { return RequestOutOfRange, [], 0; }
      code, bytes, length := Positive, [sub, w.availabilityMask], 3;
      if w.availabilityMask != 0 {
        var n := Number();
        if n as int * 4 + length <= room {
          var records := Records();
          bytes := bytes + records;
          length := length + |records|;
        } else {
          code := ResponseTooLong;
        }
      }
    }

    // The loop over the filtered DTCs, until the end is reported.
    method Records() returns (bytes: seq<bv8>)
      requires Valid() && index == 0
      modifies this`index
      ensures Valid() && State() == old(State()) && bytes == Flatten(Matching(w, settings, |w.table|))
    {
      hide NextDtc, Matching, Count;
      ghost var f, all, n := State(), Matching(w, settings, |w.table|), 0;
      assert all[..0] == [];
      bytes := [];
      OneRound(w, f, 0);
      var r := Next();
      while r.Some?
        invariant n <= |all| && Valid() && settings == f.settings
        invariant State() == After(w, f, n + 1) && r == Yield(w, f, n)
        invariant r.Some? <==> n < |all|
        invariant bytes == Flatten(all[..n])
        decreases |all| - n
      {
        OneRound(w, f, n);
        assert all[..n + 1][..n] == all[..n];
        bytes := bytes + RecordBytes(r.value);
        n := n + 1;
        OneRound(w, f, n);
        r := Next();
      }
      OneRound(w, f, n);
      assert all[..n] == all;
    }

    // udsReadDtcInfoSub_0x01_0x07_0x11_0x12, without 0x07.
    method ReportNumber(sub: bv8, mask: bv8) returns (code: Code, count: nat)
      requires Valid()
      modifies this
      ensures Valid() && NumberReport(State(), code, count) == NumberOfDtcs(w, old(State()), sub, mask)
    {
      hide Acceptable, Count;
      if mask == 0 { return Positive, 0; }
      var s := NumberSettings(sub, mask);
      var accepted := false;
      if s.Some? { accepted := Set(s.value); }
      if !accepted { return RequestOutOfRange, 0; }
      var n := Number();
      return Positive, n as nat;
    }
  }
}
