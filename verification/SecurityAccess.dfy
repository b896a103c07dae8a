/** SecurityAccess (section 9.4 of ISO 14229-1:2013): seeds, keys, the delay after wrong keys, and
    what the sessions of the protocol rows do to their security levels. */
module SecurityAccess {
  import opened Prelude

  const DEFAULT_SESSION: nat := 1
  const OBD_SESSION: nat := 5
  const LOCKED: nat := 0

  // ---------- Configuration ----------

  // Times are in milliseconds.
  datatype SecurityRow = SecurityRow(level: nat, recordSize: nat, seedSize: nat, keySize: nat,
                                     attemptsBeforeDelay: byte, delayTime: nat, delayTimeOnBoot: nat,
                                     hasGetSeed: bool, hasCompareKey: bool)

  datatype Config = Config(rows: seq<SecurityRow>, period: nat) {
    predicate Valid() { |rows| >= 1 && period >= 1 }
  }

  // ---------- State ----------

  // The wrong keys of one security row, and the delay they have brought about.
  datatype Check = Check(attempts: nat, timer: nat, delaying: bool)

  // sessions, levels: of each protocol row. requested: a seed waits for its key; it belongs to
  // level requestedLevel and security row requestedRow. current: the row of the last seed request.
  datatype State = State(sessions: seq<nat>, levels: seq<nat>, active: Option<nat>,
                         requested: bool, requestedLevel: nat, requestedRow: nat, current: nat, checks: seq<Check>)

  ghost predicate Shape(c: Config, s: State) {
    && |s.levels| == |s.sessions| && (s.active.Some? ==> s.active.value < |s.sessions|)
    && |s.checks| == |c.rows| && s.current < |c.rows|
    && (s.requested ==> s.requestedRow < |c.rows| && c.rows[s.requestedRow].level == s.requestedLevel >= 1)
    && forall i | 0 <= i < |s.checks| :: s.checks[i].attempts < 0xFF
  }

  // Dcm_Init.
  function Init(c: Config, protocols: nat): (s: State)
    requires c.Valid()
    ensures Shape(c, s)
  {
    State(seq(protocols, _ => DEFAULT_SESSION), seq(protocols, _ => LOCKED), None, false, 0, 0, 0,
          seq(|c.rows|, i requires 0 <= i < |c.rows| => BootCheck(c, i)))
  }

  function BootCheck(c: Config, i: nat): Check
    requires i < |c.rows|
  {
    var delays := c.rows[i].delayTimeOnBoot >= c.period;
    Check(0, if delays then c.rows[i].delayTimeOnBoot else 0, delays)
  }

  // ---------- Sessions ----------

  // changeDiagnosticSession. Out of the default session a pending seed is dropped; out of any
  // other one the row is locked.
  function ChangeSession(c: Config, s: State, r: nat, session: nat): (t: State)
    requires Shape(c, s) && r < |s.sessions|
    ensures Shape(c, t)
  {
    if s.sessions[r] == DEFAULT_SESSION then s.(requested := false, sessions := s.sessions[r := session])
    else s.(levels := s.levels[r := LOCKED], sessions := s.sessions[r := session])
  }

  function StartProtocol(c: Config, s: State, r: nat, obd: bool): (t: State)
    requires Shape(c, s) && r < |s.sessions|
    ensures Shape(c, t)
  {
    var t := ChangeSession(c, s, r, DEFAULT_SESSION).(active := Some(r));
    if obd then t.(sessions := t.sessions[r := OBD_SESSION]) else t
  }

  // The end of a preemption; one that has timed out also initialises the service again, which
  // drops a pending seed.
  function Preempted(c: Config, s: State, timedOut: bool): (t: State)
    requires Shape(c, s)
    ensures Shape(c, t)
  {
    if s.active.None? then s else s.(active := None, requested := s.requested && !timedOut)
  }

  // ---------- The service ----------

  datatype SeedResult = SeedOk | SeedPending | SeedRefused

  datatype Code = Positive | ResponsePending | RequiredTimeDelayNotExpired | IncorrectLength | ResponseTooLong
                | GeneralReject | SubFunctionNotSupported | RequestSequenceError | InvalidKey
                | ExceededNumberOfAttempts | ConditionsNotCorrect | SeedError

  // What a run shows to an onlooker: seeds handed out, keys judged, sessions changed.
  datatype Observation =
    | SeedGiven(level: nat)
    | KeyJudged(row: nat, level: nat, ok: bool)
    | SessionChanged(row: nat)

  datatype Outcome = Outcome(s: State, code: Code, seen: seq<Observation>)

  function FindRow(rows: seq<SecurityRow>, level: nat, i: nat := 0): (r: nat)
    requires i <= |rows|
    ensures i <= r <= |rows| && (r < |rows| ==> rows[r].level == level)
    ensures forall k | i <= k < r :: rows[k].level != level
    decreases |rows| - i
  {
    if i == |rows| || rows[i].level == level then i else FindRow(rows, level, i + 1)
  }

  // txRoom: the size of the response buffer.
  function GetSeed(c: Config, s: State, level: nat, length: nat, txRoom: nat, result: SeedResult): (r: Outcome)
    requires c.Valid() && Shape(c, s) && level >= 1
    ensures Shape(c, r.s)
  {
    var i := FindRow(c.rows, level);
    if i == |c.rows| then Outcome(s, SubFunctionNotSupported, [])
    else
      var t := s.(current := i);
      var row := c.rows[i];
      if s.checks[i].delaying then Outcome(t, RequiredTimeDelayNotExpired, [])
      else if length != 2 + row.recordSize then Outcome(t, IncorrectLength, [])
      else if s.active.None? then Outcome(t, GeneralReject, [])
      else if 2 + row.seedSize > txRoom then Outcome(t, ResponseTooLong, [])
      else if level == s.levels[s.active.value] then Outcome(t, Positive, [])
      else if !row.hasGetSeed then Outcome(t, IncorrectLength, [])
      else
        match result
        case SeedPending => Outcome(t, ResponsePending, [])
        case SeedRefused => Outcome(t, SeedError, [])
        case SeedOk =>
          Outcome(t.(requested := true, requestedLevel := level, requestedRow := i), Positive, [SeedGiven(level)])
  }

  // A wrong key is counted against the row of the last seed request.
  function CountWrongKey(c: Config, s: State): (r: (Check, Code))
    requires c.Valid() && Shape(c, s) && s.requested
    ensures r.0.attempts < 0xFF
  {
    var check, row := s.checks[s.current], c.rows[s.current];
    var attempts := check.attempts + 1;
    if attempts < c.rows[s.requestedRow].attemptsBeforeDelay as nat then (check.(attempts := attempts), InvalidKey)
    else (if row.delayTime >= c.period then Check(0, row.delayTime, true) else check.(attempts := 0),
          if row.delayTime > 0 then ExceededNumberOfAttempts else InvalidKey)
  }

  // keyOk: the verdict of the key comparison, should it be called.
  function CompareKey(c: Config, s: State, level: nat, length: nat, keyOk: bool): (r: Outcome)
    requires c.Valid() && Shape(c, s) && s.active.Some?
    ensures Shape(c, r.s)
  {
    if level != s.requestedLevel || !s.requested then Outcome(s, RequestSequenceError, [])
    else
      var row := c.rows[s.requestedRow];
      if s.checks[s.current].delaying then Outcome(s, RequiredTimeDelayNotExpired, [])
      else if length != 2 + row.keySize then Outcome(s, IncorrectLength, [])
      else if !row.hasCompareKey then Outcome(s, ConditionsNotCorrect, [])
      else
        var seen := [KeyJudged(s.active.value, row.level, keyOk)];
        if keyOk then Outcome(s.(requested := false, levels := s.levels[s.active.value := row.level]), Positive, seen)
        else
          var counted := CountWrongKey(c, s);
          Outcome(s.(requested := false, checks := s.checks[s.current := counted.0]), counted.1, seen)
  }

  // data: the request, with the service identifier in front.
  function Access(c: Config, s: State, data: seq<byte>, txRoom: nat, seed: SeedResult, keyOk: bool): (r: Outcome)
    requires c.Valid() && Shape(c, s) && s.active.Some?
    ensures Shape(c, r.s)
  {
    if |data| < 2 then Outcome(s, IncorrectLength, [])
    else
      var sub := data[1] as nat;
      if !(0x01 <= sub <= 0x42) then Outcome(s, SubFunctionNotSupported, [])
      else if sub % 2 == 1 then GetSeed(c, s, (sub + 1) / 2, |data|, txRoom, seed)
      else CompareKey(c, s, (sub + 1) / 2, |data|, keyOk)
  }

  // One tick of a delay timer.
  function TickCheck(c: Config, check: Check): Check {
    if !check.delaying then check
    else
      var timer := if check.timer >= c.period then check.timer - c.period else check.timer;
      check.(timer := timer, delaying := timer >= c.period)
  }

  function Tick(c: Config, s: State): (t: State)
    requires c.Valid() && Shape(c, s)
    ensures Shape(c, t)
  {
    s.(checks := seq(|s.checks|, i requires 0 <= i < |s.checks| => TickCheck(c, s.checks[i])))
  }

  // ---------- Runs ----------

  datatype Event =
    | Start(row: nat, obd: bool)
    | SetSession(session: nat)          // of the active row
    | Expire(row: nat, stop: bool)      // the session timer; stop: the row's protocol ends
    | Request(data: seq<byte>, txRoom: nat, seed: SeedResult, keyOk: bool)
    | GiveWay(timedOut: bool)           // the active protocol is closed by a preemption
    | TimerMain

  function Step(c: Config, s: State, e: Event): (r: Outcome)
    requires c.Valid() && Shape(c, s)
    ensures Shape(c, r.s) && |r.s.sessions| == |s.sessions|
  {
    match e
    case Start(r, obd) =>
      if r < |s.sessions| then Outcome(StartProtocol(c, s, r, obd), Positive, [SessionChanged(r)])
      else Outcome(s, Positive, [])
    case SetSession(session) =>
      if s.active.Some? then
        Outcome(ChangeSession(c, s, s.active.value, session), Positive, [SessionChanged(s.active.value)])
      else Outcome(s, Positive, [])
    case Expire(r, stop) =>
      if r < |s.sessions| && s.sessions[r] != DEFAULT_SESSION then
        var t := ChangeSession(c, s, r, DEFAULT_SESSION);
        Outcome(t.(active := if stop then None else s.active), Positive, [SessionChanged(r)])
      else Outcome(s, Positive, [])
    case Request(data, txRoom, seed, keyOk) =>
      if s.active.Some? then Access(c, s, data, txRoom, seed, keyOk) else Outcome(s, GeneralReject, [])
    case GiveWay(timedOut) => Outcome(Preempted(c, s, timedOut), Positive, [])
    case TimerMain => Outcome(Tick(c, s), Positive, [])
  }

  datatype Trace = Trace(s: State, seen: seq<Observation>)

  function Run(c: Config, t: Trace, es: seq<Event>): (r: Trace)
    requires c.Valid() && Shape(c, t.s)
    ensures Shape(c, r.s) && |r.s.sessions| == |t.s.sessions|
    decreases es
  {
    if es == [] then t else var r := Step(c, t.s, es[0]); Run(c, Trace(r.s, t.seen + r.seen), es[1..])
  }

  // No key is accepted on a row in the default session: the service is not available there.
  ghost predicate UnlocksOutsideDefault(c: Config, s: State, es: seq<Event>)
    requires c.Valid() && Shape(c, s)
    decreases es
  {
    es != [] ==>
      && (forall r: nat, level: nat :: KeyJudged(r, level, true) in Step(c, s, es[0]).seen ==>
                                         r < |s.sessions| && s.sessions[r] != DEFAULT_SESSION)
      && UnlocksOutsideDefault(c, Step(c, s, es[0]).s, es[1..])
  }

  // ---------- What every reachable state satisfies ----------

  ghost predicate DefaultLocked(s: State)
    requires |s.levels| == |s.sessions|
  {
    forall r | 0 <= r < |s.sessions| && s.sessions[r] == DEFAULT_SESSION :: s.levels[r] == LOCKED
  }

  // Observation j is a seed for the level, and no key has been judged between it and n.
  predicate UnusedSeed(seen: seq<Observation>, level: nat, j: nat, n: nat) {
    j < n <= |seen| && seen[j] == SeedGiven(level) && forall k | j < k < n :: !seen[k].KeyJudged?
  }

  // Observation i is a good key for the level on row r, its session has not changed since, and
  // the key used up a seed for the level that no other key had used.
  ghost predicate Earned(seen: seq<Observation>, r: nat, level: nat, i: nat) {
    && i < |seen| && seen[i] == KeyJudged(r, level, true)
    && (forall k | i < k < |seen| :: seen[k] != SessionChanged(r))
    && exists j :: UnusedSeed(seen, level, j, i)
  }

  ghost predicate Inv(c: Config, t: Trace)
    requires c.Valid()
  {
    && Shape(c, t.s) && DefaultLocked(t.s)
    && (t.s.requested ==> exists j :: UnusedSeed(t.seen, t.s.requestedLevel, j, |t.seen|))
    && (forall r | 0 <= r < |t.s.levels| && t.s.levels[r] != LOCKED :: exists i :: Earned(t.seen, r, t.s.levels[r], i))
  }

  lemma {:induction false} SeedStays(seen: seq<Observation>, level: nat, j: nat, n: nat, more: seq<Observation>)
    requires UnusedSeed(seen, level, j, n)
    ensures UnusedSeed(seen + more, level, j, n)
    ensures n == |seen| && (forall k | 0 <= k < |more| :: !more[k].KeyJudged?) ==>
              UnusedSeed(seen + more, level, j, n + |more|)
  {
  }

  lemma {:induction false} EarnedStays(seen: seq<Observation>, r: nat, level: nat, i: nat, more: seq<Observation>)
    requires Earned(seen, r, level, i) && SessionChanged(r) !in more
    ensures Earned(seen + more, r, level, i)
  {
    var j :| UnusedSeed(seen, level, j, i);
    SeedStays(seen, level, j, i, more);
  }

  // A step that only hands a session change to the onlooker.
  lemma {:induction false} ChangeKeepsInv(c: Config, t: Trace, r: nat, s: State)
    requires c.Valid() && Inv(c, t) && r < |t.s.sessions| && Shape(c, s) && |s.sessions| == |t.s.sessions|
    requires s.levels[r] == LOCKED && (s.requested ==> t.s.requested && s.requestedLevel == t.s.requestedLevel)
    requires forall q | 0 <= q < |s.levels| && q != r ::
             s.levels[q] == t.s.levels[q] && s.sessions[q] == t.s.sessions[q]
    ensures Inv(c, Trace(s, t.seen + [SessionChanged(r)]))
  {
    var more := [SessionChanged(r)];
    if s.requested {
      var j :| UnusedSeed(t.seen, t.s.requestedLevel, j, |t.seen|);
      SeedStays(t.seen, t.s.requestedLevel, j, |t.seen|, more);
    }
    forall q | 0 <= q < |s.levels| && s.levels[q] != LOCKED
      ensures exists i :: Earned(t.seen + more, q, s.levels[q], i)
    {
      var i :| Earned(t.seen, q, t.s.levels[q], i);
      EarnedStays(t.seen, q, t.s.levels[q], i, more);
    }
  }

  // A step that changes neither sessions nor levels, nor judges a key.
  lemma {:induction false} QuietKeepsInv(c: Config, t: Trace, s: State, more: seq<Observation>)
    requires c.Valid() && Inv(c, t) && Shape(c, s) && s.sessions == t.s.sessions && s.levels == t.s.levels
    requires forall k | 0 <= k < |more| :: more[k].SeedGiven?
    requires s.requested ==> (more == [] && t.s.requested && s.requestedLevel == t.s.requestedLevel)
                             || more == [SeedGiven(s.requestedLevel)]
    ensures Inv(c, Trace(s, t.seen + more))
  {
    if s.requested {
      if more == [] {
        assert t.seen + more == t.seen;
      } else {
        assert UnusedSeed(t.seen + more, s.requestedLevel, |t.seen|, |t.seen| + 1);
      }
    }
    forall q | 0 <= q < |s.levels| && s.levels[q] != LOCKED
      ensures exists i :: Earned(t.seen + more, q, s.levels[q], i)
    {
      var i :| Earned(t.seen, q, t.s.levels[q], i);
      EarnedStays(t.seen, q, t.s.levels[q], i, more);
    }
  }

  lemma {:induction false} KeyKeepsInv(c: Config, t: Trace, level: nat, length: nat, keyOk: bool)
    requires c.Valid() && Inv(c, t) && t.s.active.Some?
    requires t.s.sessions[t.s.active.value] != DEFAULT_SESSION
             || !(exists r, l :: KeyJudged(r, l, true) in CompareKey(c, t.s, level, length, keyOk).seen)
    ensures var r := CompareKey(c, t.s, level, length, keyOk); Inv(c, Trace(r.s, t.seen + r.seen))
  {
    var r := CompareKey(c, t.s, level, length, keyOk);
    if r.seen == [] {
      assert t.seen + r.seen == t.seen;
    } else {
      hide CompareKey, CountWrongKey, UnusedSeed;
      KeyJudges(c, t.s, level, length, keyOk);
      var a := t.s.active.value;
      var l := t.s.requestedLevel;
      if keyOk {
        assert KeyJudged(a, l, true) in r.seen;
        var j :| UnusedSeed(t.seen, l, j, |t.seen|);
        SeedStays(t.seen, l, j, |t.seen|, r.seen);
        assert Earned(t.seen + r.seen, a, l, |t.seen|);
      }
      forall q | 0 <= q < |r.s.levels| && r.s.levels[q] != LOCKED
        ensures exists i :: Earned(t.seen + r.seen, q, r.s.levels[q], i)
      {
        if !(keyOk && q == a) {
          var i :| Earned(t.seen, q, t.s.levels[q], i);
          EarnedStays(t.seen, q, t.s.levels[q], i, r.seen);
        }
      }
    }
  }

  lemma {:induction false} KeyJudges(c: Config, s: State, level: nat, length: nat, keyOk: bool)
    requires c.Valid() && Shape(c, s) && s.active.Some? && CompareKey(c, s, level, length, keyOk).seen != []
    ensures var r := CompareKey(c, s, level, length, keyOk);
            && s.requested && r.seen == [KeyJudged(s.active.value, s.requestedLevel, keyOk)] && !r.s.requested
            && r.s.sessions == s.sessions
            && r.s.levels == if keyOk then s.levels[s.active.value := s.requestedLevel] else s.levels
  {
  }

  lemma {:induction false} StepKeepsInv(c: Config, t: Trace, e: Event)
    requires c.Valid() && Inv(c, t) && UnlocksOutsideDefault(c, t.s, [e])
    ensures var r := Step(c, t.s, e); Inv(c, Trace(r.s, t.seen + r.seen))
  {
    assert [e][0] == e;
    hide GetSeed, CompareKey, ChangeSession, UnusedSeed, Earned, Tick;
    var s := t.s;
    var r := Step(c, s, e);
    match e
    case Start(row, obd) =>
      if row < |s.sessions| {
        LocksRow(c, s, row, DEFAULT_SESSION);
        ChangeKeepsInv(c, t, row, r.s);
      } else {
        assert t.seen + r.seen == t.seen;
      }
    case SetSession(session) =>
      if s.active.Some? {
        LocksRow(c, s, s.active.value, session);
        ChangeKeepsInv(c, t, s.active.value, r.s);
      } else {
        assert t.seen + r.seen == t.seen;
      }
    case Expire(row, stop) =>
      if row < |s.sessions| && s.sessions[row] != DEFAULT_SESSION {
        LocksRow(c, s, row, DEFAULT_SESSION);
        ChangeKeepsInv(c, t, row, r.s);
      } else {
        assert t.seen + r.seen == t.seen;
      }
    case Request(data, txRoom, seed, keyOk) => RequestKeepsInv(c, t, data, txRoom, seed, keyOk);
    case GiveWay(_) => QuietKeepsInv(c, t, r.s, r.seen);
    case TimerMain => QuietTick(c, s); QuietKeepsInv(c, t, r.s, r.seen);
  }

  lemma {:induction false} QuietTick(c: Config, s: State)
    requires c.Valid() && Shape(c, s)
    ensures Tick(c, s) == s.(checks := Tick(c, s).checks)
  {
  }

  // Every session change leaves its row locked.
  lemma {:induction false} LocksRow(c: Config, s: State, r: nat, session: nat)
    requires Shape(c, s) && DefaultLocked(s) && r < |s.sessions|
    ensures var t := ChangeSession(c, s, r, session);
            && t.levels[r] == LOCKED && t.sessions[r] == session && t.active == s.active
            && (forall q | 0 <= q < |s.levels| && q != r ::
              t.levels[q] == s.levels[q] && t.sessions[q] == s.sessions[q])
            && |t.sessions| == |s.sessions|
            && (t.requested ==> s.requested && t.requestedLevel == s.requestedLevel)
  {
  }

  lemma {:induction false} SeedSeen(c: Config, s: State, level: nat, length: nat, txRoom: nat, result: SeedResult)
    requires c.Valid() && Shape(c, s) && level >= 1
    ensures var r := GetSeed(c, s, level, length, txRoom, result);
            && r.s.sessions == s.sessions && r.s.levels == s.levels && r.s.active == s.active
            && (r.seen == [] ==> r.s.requested == s.requested && r.s.requestedLevel == s.requestedLevel)
            && (r.seen != [] ==> r.seen == [SeedGiven(r.s.requestedLevel)])
  {
  }

  lemma {:induction false} StepOfRequest(c: Config, s: State, data: seq<byte>, txRoom: nat, seed: SeedResult,
                                         keyOk: bool)
    requires c.Valid() && Shape(c, s) && s.active.Some? && |data| >= 2 && 0x01 <= data[1] as nat <= 0x42
    ensures var level := (data[1] as nat + 1) / 2;
            Step(c, s, Request(data, txRoom, seed, keyOk))
            == if data[1] as nat % 2 == 1 then GetSeed(c, s, level, |data|, txRoom, seed)
               else CompareKey(c, s, level, |data|, keyOk)
  {
    hide GetSeed, CompareKey;
  }

  lemma {:induction false} RequestKeepsInv(c: Config, t: Trace, data: seq<byte>, txRoom: nat, seed: SeedResult,
                                           keyOk: bool)
    requires c.Valid() && Inv(c, t)
    requires UnlocksOutsideDefault(c, t.s, [Request(data, txRoom, seed, keyOk)])
    ensures var r := Step(c, t.s, Request(data, txRoom, seed, keyOk)); Inv(c, Trace(r.s, t.seen + r.seen))
  {
    var e := Request(data, txRoom, seed, keyOk);
    assert [e][0] == e;
    hide GetSeed, CompareKey, UnusedSeed, Earned, DefaultLocked;
    var r := Step(c, t.s, e);
    if t.s.active.Some? && |data| >= 2 && 0x01 <= data[1] as nat <= 0x42 {
      var sub := data[1] as nat;
      var level := (sub + 1) / 2;
      hide Access, Step;
      if sub % 2 == 1 {
        assert r == GetSeed(c, t.s, level, |data|, txRoom, seed) by {
          StepOfRequest(c, t.s, data, txRoom, seed, keyOk);
        }
        SeedSeen(c, t.s, level, |data|, txRoom, seed);
        QuietKeepsInv(c, t, r.s, r.seen);
      } else {
        assert r == CompareKey(c, t.s, level, |data|, keyOk) by { StepOfRequest(c, t.s, data, txRoom, seed, keyOk); }
        if r.seen != [] { KeyJudges(c, t.s, level, |data|, keyOk); }
        KeyKeepsInv(c, t, level, |data|, keyOk);
      }
    } else {
      assert t.seen + r.seen == t.seen;
    }
  }

  lemma {:induction false} RunKeepsInv(c: Config, t: Trace, es: seq<Event>)
    requires c.Valid() && Inv(c, t) && UnlocksOutsideDefault(c, t.s, es)
    ensures Inv(c, Run(c, t, es))
    decreases es
  {
    hide Step, DefaultLocked, Shape, UnusedSeed, Earned;
    if es != [] {
      OneStep(c, t.s, es);
      StepKeepsInv(c, t, es[0]);
      var r := Step(c, t.s, es[0]);
      RunKeepsInv(c, Trace(r.s, t.seen + r.seen), es[1..]);
    }
  }

  lemma {:induction false} OneStep(c: Config, s: State, es: seq<Event>)
    requires c.Valid() && Shape(c, s) && es != [] && UnlocksOutsideDefault(c, s, es)
    ensures UnlocksOutsideDefault(c, s, [es[0]])
  {
    hide Step;
    assert [es[0]][1..] == [];
  }

  // ---------- The main results ----------

  lemma {:induction false} InitInv(c: Config, protocols: nat)
    requires c.Valid()
    ensures Inv(c, Trace(Init(c, protocols), []))
  {
  }

  // In every run from start-up: a row in the default session is locked.
  lemma {:induction false} DefaultSessionIsLocked(c: Config, protocols: nat, es: seq<Event>, r: nat)
    requires c.Valid() && UnlocksOutsideDefault(c, Init(c, protocols), es) && r < protocols
    ensures var t := Run(c, Trace(Init(c, protocols), []), es);
            t.s.sessions[r] == DEFAULT_SESSION ==> t.s.levels[r] == LOCKED
  {
    InitInv(c, protocols);
    RunKeepsInv(c, Trace(Init(c, protocols), []), es);
  }

  // A session change locks its row, and an unlocked row has earned its level by a good key
  // since then, for a seed no other key has been tried on.
  lemma {:induction false} UnlockedIsEarned(c: Config, protocols: nat, es: seq<Event>, r: nat)
    returns (key: nat, seed: nat)
    requires c.Valid() && UnlocksOutsideDefault(c, Init(c, protocols), es) && r < protocols
    requires Run(c, Trace(Init(c, protocols), []), es).s.levels[r] != LOCKED
    ensures var t := Run(c, Trace(Init(c, protocols), []), es);
            && seed < key < |t.seen|
            && t.seen[key] == KeyJudged(r, t.s.levels[r], true) && t.seen[seed] == SeedGiven(t.s.levels[r])
            && (forall k | key < k < |t.seen| :: t.seen[k] != SessionChanged(r))
            && (forall k | seed < k < key :: !t.seen[k].KeyJudged?)
  {
    InitInv(c, protocols);
    RunKeepsInv(c, Trace(Init(c, protocols), []), es);
    var t := Run(c, Trace(Init(c, protocols), []), es);
    key :| Earned(t.seen, r, t.s.levels[r], key);
    seed :| UnusedSeed(t.seen, t.s.levels[r], seed, key);
  }

  lemma {:induction false} SessionChangeLocks(c: Config, protocols: nat, es: seq<Event>, e: Event, r: nat)
    requires c.Valid() && UnlocksOutsideDefault(c, Init(c, protocols), es) && r < protocols
    requires SessionChanged(r) in Step(c, Run(c, Trace(Init(c, protocols), []), es).s, e).seen
    ensures Step(c, Run(c, Trace(Init(c, protocols), []), es).s, e).s.levels[r] == LOCKED
  {
    InitInv(c, protocols);
    RunKeepsInv(c, Trace(Init(c, protocols), []), es);
    var s := Run(c, Trace(Init(c, protocols), []), es).s;
    hide Run, GetSeed, CompareKey;
    match e
    case Request(_, _, _, _) => RequestChangesNoSession(c, s, e, r);
    case _ =>
  }

  lemma {:induction false} RequestChangesNoSession(c: Config, s: State, e: Event, r: nat)
    requires c.Valid() && Shape(c, s) && e.Request?
    ensures SessionChanged(r) !in Step(c, s, e).seen
  {
    hide GetSeed, CompareKey;
    if s.active.Some? && |e.data| >= 2 && 0x01 <= e.data[1] as nat <= 0x42 {
      var sub := e.data[1] as nat;
      if sub % 2 == 1 { SeedSeen(c, s, (sub + 1) / 2, |e.data|, e.txRoom, e.seed); }
      else if CompareKey(c, s, (sub + 1) / 2, |e.data|, e.keyOk).seen != [] {
        KeyJudges(c, s, (sub + 1) / 2, |e.data|, e.keyOk);
      }
    }
  }

  // ---------- The delay ----------

  function TickTimes(c: Config, check: Check, n: nat): Check {
    if n == 0 then check else TickCheck(c, TickTimes(c, check, n - 1))
  }

  // A delay of t milliseconds ends on exactly the (t / period)-th tick.
  lemma {:induction false} DelayEndsExactly(c: Config, check: Check, n: nat)
    requires c.Valid() && check.delaying && check.timer >= c.period
    ensures TickTimes(c, check, n).delaying <==> n < check.timer / c.period
    ensures n <= check.timer / c.period ==> TickTimes(c, check, n).timer == check.timer - n * c.period
  {
    FitsExactly(check.timer, c.period, n);
    FitsExactly(check.timer, c.period, n + 1);
    if n > 0 {
      DelayEndsExactly(c, check, n - 1);
      assert n * c.period == (n - 1) * c.period + c.period;
    }
  }

  // n periods fit into t exactly if n is at most their quotient.
  lemma {:induction false} FitsExactly(t: nat, p: nat, n: nat)
    requires p > 0
    ensures n <= t / p <==> n * p <= t
    ensures (n + 1) * p == n * p + p
  {
    var q := t / p;
    assert t == q * p + t % p;
    if n <= q { Times(n, q, p); } else { Times(q + 1, n, p); }
  }

  lemma {:induction false} Times(n: nat, m: nat, p: nat)
    requires n <= m
    ensures n * p <= m * p
  {
  }

  function Ticks(es: seq<Event>): nat {
    if es == [] then 0 else (if es[0].TimerMain? then 1 else 0) + Ticks(es[1..])
  }

  // The request asks for the seed of a level of the given security row.
  predicate AsksSeedOf(c: Config, e: Event, i: nat) {
    && e.Request? && |e.data| >= 2 && e.data[1] as nat <= 0x42 && e.data[1] as nat % 2 == 1
    && i < |c.rows| && FindRow(c.rows, (e.data[1] as nat + 1) / 2) == i
  }

  ghost predicate AsksElsewhere(c: Config, e: Event, i: nat) { exists k :: k != i && AsksSeedOf(c, e, k) }

  lemma {:induction false} TickFirst(c: Config, check: Check, n: nat)
    ensures TickTimes(c, TickCheck(c, check), n) == TickTimes(c, check, n + 1)
  {
    hide TickCheck;
    if n > 0 { TickFirst(c, check, n - 1); }
  }

  lemma {:induction false} StillDelaying(c: Config, check: Check, n: nat)
    requires TickTimes(c, check, n).delaying
    ensures check.delaying
  {
    if n > 0 { StillDelaying(c, check, n - 1); }
  }

  // One event while the row of the last seed request is delayed.
  lemma {:induction false} DelayedStep(c: Config, s: State, e: Event)
    requires c.Valid() && Shape(c, s) && s.checks[s.current].delaying && !AsksElsewhere(c, e, s.current)
    ensures var r := Step(c, s, e);
            && r.s.current == s.current
            && r.s.checks[s.current]
               == (if e.TimerMain? then TickCheck(c, s.checks[s.current]) else s.checks[s.current])
            && (forall k | 0 <= k < |r.seen| :: r.seen[k].SessionChanged?)
            && (AsksSeedOf(c, e, s.current) && s.active.Some? ==> r.code == RequiredTimeDelayNotExpired)
  {
    if e.Request? && |e.data| >= 2 && 0x01 <= e.data[1] as nat <= 0x42 && e.data[1] as nat % 2 == 1 {
      var k := FindRow(c.rows, (e.data[1] as nat + 1) / 2);
      if k < |c.rows| { assert AsksSeedOf(c, e, k); }
    }
    hide FindRow, AsksElsewhere;
  }

  // Whatever happens, in whatever order, while a delay of t milliseconds has not seen its
  // (t / period)-th tick and no other row is asked for a seed: no seed is handed out and no key
  // is judged, for any level.
  lemma {:induction false} NoSeedDuringDelay(c: Config, t: Trace, es: seq<Event>)
    requires c.Valid() && Shape(c, t.s) && t.s.checks[t.s.current].delaying
    requires forall i | 0 <= i < |es| :: !AsksElsewhere(c, es[i], t.s.current)
    requires t.s.checks[t.s.current].timer >= c.period && Ticks(es) < t.s.checks[t.s.current].timer / c.period
    ensures var r := Run(c, t, es);
            && r.s.current == t.s.current && r.s.checks[t.s.current].delaying
            && t.seen <= r.seen && forall k | |t.seen| <= k < |r.seen| :: r.seen[k].SessionChanged?
  {
    DelayEndsExactly(c, t.s.checks[t.s.current], Ticks(es));
    QuietDuringDelay(c, t, es);
  }

  lemma {:induction false} QuietDuringDelay(c: Config, t: Trace, es: seq<Event>)
    requires c.Valid() && Shape(c, t.s) && TickTimes(c, t.s.checks[t.s.current], Ticks(es)).delaying
    requires forall i | 0 <= i < |es| :: !AsksElsewhere(c, es[i], t.s.current)
    ensures var r := Run(c, t, es);
            && r.s.current == t.s.current && r.s.checks[t.s.current] == TickTimes(c, t.s.checks[t.s.current], Ticks(es))
            && t.seen <= r.seen && forall k | |t.seen| <= k < |r.seen| :: r.seen[k].SessionChanged?
    decreases es
  {
    hide Step, AsksElsewhere, TickCheck;
    if es != [] {
      var check := t.s.checks[t.s.current];
      StillDelaying(c, check, Ticks(es));
      DelayedStep(c, t.s, es[0]);
      TickFirst(c, check, Ticks(es[1..]));
      var r := Step(c, t.s, es[0]);
      QuietDuringDelay(c, Trace(r.s, t.seen + r.seen), es[1..]);
    }
  }

  // ---------- The service as the program runs it ----------

  class SecurityServer {
    const c: Config
    const sessions: array<nat>
    const levels: array<nat>
    const checks: array<Check>
    var active: Option<nat>
    var requested: bool
    var requestedLevel: nat
    var requestedRow: nat
    var current: nat

    ghost function Value(): State
      reads this, sessions, levels, checks
    {
      State(sessions[..], levels[..], active, requested, requestedLevel, requestedRow, current, checks[..])
    }

    ghost predicate Valid()
      reads this, sessions, levels, checks
    {
      c.Valid() && Shape(c, Value()) && sessions != levels
    }

    constructor (c: Config, protocols: nat)
      requires c.Valid()
      ensures Valid() && Value() == Init(c, protocols) && this.c == c
      ensures fresh(sessions) && fresh(levels) && fresh(checks)
    {
      this.c := c;
      sessions := new nat[protocols](_ => DEFAULT_SESSION);
      levels := new nat[protocols](_ => LOCKED);
      checks := new Check[|c.rows|](i requires 0 <= i < |c.rows| => BootCheck(c, i));
      active, requested, requestedLevel, requestedRow, current := None, false, 0, 0, 0;
      new;
      assert sessions[..] == seq(protocols, _ => DEFAULT_SESSION);
      assert levels[..] == seq(protocols, _ => LOCKED);
      assert checks[..] == Init(c, protocols).checks;
    }

    method ChangeDiagnosticSession(r: nat, session: nat)
      requires Valid() && r < sessions.Length
      modifies this`requested, sessions, levels
      ensures Valid() && Value() == ChangeSession(c, old(Value()), r, session)
    {
      ghost var was, locks := sessions[..], levels[..];
      if sessions[r] == DEFAULT_SESSION {
        requested := false;
      } else {
        levels[r] := LOCKED;
        assert levels[..] == locks[r := LOCKED];
      }
      sessions[r] := session;
      assert sessions[..] == was[r := session];
    }

    method Open(r: nat, obd: bool)
      requires Valid() && r < sessions.Length
      modifies this`requested, this`active, sessions, levels
      ensures Valid() && Value() == StartProtocol(c, old(Value()), r, obd)
    {
      ChangeDiagnosticSession(r, DEFAULT_SESSION);
      active := Some(r);
      if obd {
        ghost var was := sessions[..];
        sessions[r] := OBD_SESSION;
        assert sessions[..] == was[r := OBD_SESSION];
      }
    }

    method Close(timedOut: bool)
      requires Valid()
      modifies this`active, this`requested
      ensures Valid() && Value() == Preempted(c, old(Value()), timedOut)
    {
      if active.Some? {
        active := None;
        if timedOut { requested := false; }
      }
    }

    method LookUp(level: nat) returns (i: nat)
      ensures i == FindRow(c.rows, level)
    {
      i := 0;
      while i < |c.rows| && c.rows[i].level != level
        invariant i <= |c.rows| && FindRow(c.rows, level) == FindRow(c.rows, level, i)
      {
        i := i + 1;
      }
    }

    method RequestSeed(level: nat, length: nat, txRoom: nat, result: SeedResult)
      returns (code: Code, seen: seq<Observation>)
      requires Valid() && level >= 1
      modifies this`current, this`requested, this`requestedLevel, this`requestedRow
      ensures Valid() && Outcome(Value(), code, seen) == GetSeed(c, old(Value()), level, length, txRoom, result)
    {
      seen := [];
      var i := LookUp(level);
      if i == |c.rows| { return SubFunctionNotSupported, []; }
      var row := c.rows[i];
      current := i;
      if checks[i].delaying { return RequiredTimeDelayNotExpired, []; }
      if length != 2 + row.recordSize { return IncorrectLength, []; }
      if active.None? { return GeneralReject, []; }
      if 2 + row.seedSize > txRoom { return ResponseTooLong, []; }
      if level == levels[active.value] { return Positive, []; }
      if !row.hasGetSeed { return IncorrectLength, []; }
      match result
      case SeedPending => code := ResponsePending;
      case SeedOk =>
        code := Positive;
        requested, requestedLevel, requestedRow := true, level, i;
        seen := [SeedGiven(level)];
      case SeedRefused => code := SeedError;
    }

    method NoteWrongKey() returns (code: Code)
      requires Valid() && requested
      modifies checks
      ensures Valid()
      ensures var counted := CountWrongKey(c, old(Value()));
              code == counted.1 && checks[..] == old(checks[..])[current := counted.0]
    {
      code := InvalidKey;
      ghost var was := checks[..];
      var check := checks[current];
      check := check.(attempts := check.attempts + 1);
      if check.attempts >= c.rows[requestedRow].attemptsBeforeDelay as nat {
        var delay := c.rows[current].delayTime;
        if delay >= c.period { check := check.(delaying := true, timer := delay); }
        check := check.(attempts := 0);
        if delay > 0 { code := ExceededNumberOfAttempts; }
      }
      checks[current] := check;
      assert checks[..] == was[current := check];
    }

    method SendKey(level: nat, length: nat, keyOk: bool) returns (code: Code, seen: seq<Observation>)
      requires Valid() && active.Some?
      modifies this`requested, levels, checks
      ensures Valid() && Outcome(Value(), code, seen) == CompareKey(c, old(Value()), level, length, keyOk)
    {
      seen := [];
      if level != requestedLevel || !requested { return RequestSequenceError, []; }
      var row := c.rows[requestedRow];
      if checks[current].delaying { return RequiredTimeDelayNotExpired, []; }
      if length != 2 + row.keySize { return IncorrectLength, []; }
      if !row.hasCompareKey { return ConditionsNotCorrect, []; }
      seen := [KeyJudged(active.value, row.level, keyOk)];
      if keyOk {
        ghost var locks := levels[..];
        requested := false;
        levels[active.value] := row.level;
        assert levels[..] == locks[active.value := row.level];
        code := Positive;
      } else {
        code := NoteWrongKey();
        requested := false;
      }
    }

    // DspUdsSecurityAccess.
    method Serve(data: seq<byte>, txRoom: nat, seed: SeedResult, keyOk: bool)
      returns (code: Code, seen: seq<Observation>)
      requires Valid() && active.Some?
      modifies this, levels, checks
      ensures Valid() && Outcome(Value(), code, seen) == Access(c, old(Value()), data, txRoom, seed, keyOk)
    {
      hide GetSeed, CompareKey;
      seen := [];
      if |data| < 2 { return IncorrectLength, []; }
      var sub := data[1] as nat;
      if sub < 0x01 || sub > 0x42 { return SubFunctionNotSupported, []; }
      if sub % 2 == 1 {
        code, seen := RequestSeed((sub + 1) / 2, |data|, txRoom, seed);
      } else {
        code, seen := SendKey((sub + 1) / 2, |data|, keyOk);
      }
    }

    // DspTimerMain.
    method TickAll()
      requires Valid()
      modifies checks
      ensures Valid() && Value() == Tick(c, old(Value()))
    {
      ghost var was := checks[..];
      var i := 0;
      while i < checks.Length
        invariant i <= checks.Length
        invariant forall k | 0 <= k < checks.Length :: checks[k] == if k < i then TickCheck(c, was[k]) else was[k]
      {
        if checks[i].delaying {
          if checks[i].timer >= c.period { checks[i] := checks[i].(timer := checks[i].timer - c.period); }
          if checks[i].timer < c.period { checks[i] := checks[i].(delaying := false); }
        }
        i := i + 1;
      }
      assert checks[..] == Tick(c, old(Value())).checks;
    }
  }
}
