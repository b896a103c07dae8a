/** How wrong keys bring a delay about, how many of them a tester can try in any stretch of time, and
    what a good key is worth. */
module SecurityDelay {
  import opened Prelude
  import opened SecurityAccess

  // ---------- Counting wrong keys ----------

  function Wrongs(seen: seq<Observation>): nat {
    if seen == [] then 0
    else Wrongs(seen[..|seen| - 1]) + if seen[|seen| - 1].KeyJudged? && !seen[|seen| - 1].ok then 1 else 0
  }

  lemma {:induction false} WrongsAppend(a: seq<Observation>, b: seq<Observation>)
    ensures Wrongs(a + b) == Wrongs(a) + Wrongs(b)
  {
    if b == [] {
      assert a + b == a;
    } else {
      WrongsAppend(a, b[..|b| - 1]);
      assert (a + b)[..|a + b| - 1] == a + b[..|b| - 1];
    }
  }

  // The wrong keys of row i that bring about a delay, and the ticks it lasts.
  function Limit(c: Config, i: nat): nat
    requires i < |c.rows|
  {
    AtLeastOne(c.rows[i].attemptsBeforeDelay as nat)
  }

  function DelayTicks(c: Config, i: nat): nat
    requires c.Valid() && i < |c.rows|
  {
    c.rows[i].delayTime / c.period
  }

  // Nobody asks for the seed of another security row.
  ghost predicate OnlyRow(c: Config, es: seq<Event>, i: nat) {
    i < |c.rows| && forall k | 0 <= k < |es| :: !AsksElsewhere(c, es[k], i)
  }

  // ---------- One step ----------

  // A pending seed is one of row i, and so the row of the last request.
  predicate SeedOfRow(s: State, i: nat) { s.requested ==> s.requestedRow == i == s.current }

  predicate CheckOk(c: Config, check: Check, i: nat)
    requires i < |c.rows|
  {
    check.attempts < Limit(c, i) && (check.delaying ==> check.attempts == 0 && check.timer >= c.period)
  }

  // The check of row i after one more wrong key.
  predicate Noted(c: Config, before: Check, after: Check, i: nat)
    requires i < |c.rows|
  {
    if before.attempts + 1 < Limit(c, i) then after == before.(attempts := before.attempts + 1)
    else after.attempts == 0
         && after.delaying == (c.rows[i].delayTime >= c.period)
         && (after.delaying ==> after.timer == c.rows[i].delayTime)
  }

  ghost predicate Stepped(c: Config, s: State, e: Event, i: nat)
    requires c.Valid() && Shape(c, s) && i < |c.rows|
  {
    var r := Step(c, s, e);
    var before, after := s.checks[i], r.s.checks[i];
    && SeedOfRow(r.s, i)
    && if Wrongs(r.seen) == 0 then after == if e.TimerMain? then TickCheck(c, before) else before
       else Wrongs(r.seen) == 1 && !before.delaying && Noted(c, before, after, i)
            && r.code == if before.attempts + 1 == Limit(c, i) && c.rows[i].delayTime > 0 then ExceededNumberOfAttempts
                         else InvalidKey
  }

  lemma {:induction false} KeyStepped(c: Config, s: State, level: nat, length: nat, keyOk: bool, i: nat)
    requires c.Valid() && Shape(c, s) && s.active.Some? && i < |c.rows| && SeedOfRow(s, i) && CheckOk(c, s.checks[i], i)
    ensures var r := CompareKey(c, s, level, length, keyOk);
            && SeedOfRow(r.s, i)
            && if Wrongs(r.seen) == 0 then r.s.checks[i] == s.checks[i]
               else Wrongs(r.seen) == 1 && !s.checks[i].delaying && Noted(c, s.checks[i], r.s.checks[i], i)
                    && r.code == if s.checks[i].attempts + 1 == Limit(c, i) && c.rows[i].delayTime > 0
                                 then ExceededNumberOfAttempts else InvalidKey
  {
    var r := CompareKey(c, s, level, length, keyOk);
    assert Wrongs([]) == 0 && (|r.seen| == 1 ==> r.seen[..0] == []);
  }

  lemma {:induction false} SeedStepped(c: Config, s: State, level: nat, length: nat, txRoom: nat, result: SeedResult,
                                       i: nat)
    requires c.Valid() && Shape(c, s) && level >= 1 && i < |c.rows| && SeedOfRow(s, i)
    requires FindRow(c.rows, level) == i || FindRow(c.rows, level) == |c.rows|
    ensures var r := GetSeed(c, s, level, length, txRoom, result);
            SeedOfRow(r.s, i) && Wrongs(r.seen) == 0 && r.s.checks == s.checks
  {
    var r := GetSeed(c, s, level, length, txRoom, result);
    assert Wrongs([]) == 0 && (|r.seen| == 1 ==> r.seen[..0] == []);
  }

  lemma {:induction false} NoWrongs(seen: seq<Observation>)
    requires forall k | 0 <= k < |seen| :: !seen[k].KeyJudged?
    ensures Wrongs(seen) == 0
  {
    if seen != [] { NoWrongs(seen[..|seen| - 1]); }
  }

  lemma {:induction false} StepCounts(c: Config, s: State, e: Event, i: nat)
    requires c.Valid() && Shape(c, s) && OnlyRow(c, [e], i) && SeedOfRow(s, i) && CheckOk(c, s.checks[i], i)
    ensures Stepped(c, s, e, i) && CheckOk(c, Step(c, s, e).s.checks[i], i)
  {
    assert [e][0] == e;
    hide Wrongs, Noted, AsksElsewhere;
    if e.Request? {
      RequestCounts(c, s, e, i);
      hide Step;
      NotedOk(c, s.checks[i], Step(c, s, e).s.checks[i], i);
    } else {
      NoWrongs(Step(c, s, e).seen);
    }
  }

  lemma {:induction false} RequestCounts(c: Config, s: State, e: Event, i: nat)
    requires c.Valid() && Shape(c, s) && e.Request? && i < |c.rows| && !AsksElsewhere(c, e, i)
    requires SeedOfRow(s, i) && CheckOk(c, s.checks[i], i)
    ensures Stepped(c, s, e, i)
  {
    hide GetSeed, CompareKey, FindRow, Noted, Wrongs;
    var data, level := e.data, if |e.data| >= 2 then (e.data[1] as nat + 1) / 2 else 0;
    NoWrongs([]);
    if s.active.Some? && |data| >= 2 && 0x01 <= data[1] as nat <= 0x42 {
      if data[1] as nat % 2 == 1 {
        if FindRow(c.rows, level) < |c.rows| { assert AsksSeedOf(c, e, FindRow(c.rows, level)); }
        SeedStepped(c, s, level, |data|, e.txRoom, e.seed, i);
      } else {
        KeyStepped(c, s, level, |data|, e.keyOk, i);
      }
    }
  }

  lemma {:induction false} NotedOk(c: Config, before: Check, after: Check, i: nat)
    requires c.Valid() && i < |c.rows| && CheckOk(c, before, i)
    ensures Noted(c, before, after, i) && !before.delaying ==> CheckOk(c, after, i)
  {
  }

  // ---------- Every Limit-th wrong key ----------

  ghost predicate Counting(c: Config, t: Trace, i: nat) {
    && c.Valid() && Shape(c, t.s) && i < |c.rows| && SeedOfRow(t.s, i) && CheckOk(c, t.s.checks[i], i)
    && t.s.checks[i].attempts == Wrongs(t.seen) % Limit(c, i)
  }

  lemma {:induction false} NextOfRest(n: nat, m: nat)
    requires m > 0
    ensures (n + 1) % m == if n % m + 1 < m then n % m + 1 else 0
  {
    var q, r := n / m, n % m;
    assert n == q * m + r;
    if r + 1 < m {
      RestOf(q, m, r + 1);
    } else {
      assert n + 1 == (q + 1) * m + 0;
      RestOf(q + 1, m, 0);
    }
  }

  lemma {:induction false} RestOf(q: nat, m: nat, r: nat)
    requires r < m
    ensures (q * m + r) % m == r
  {
    var n := q * m + r;
    assert n == (n / m) * m + n % m;
    if n / m < q { Times(n / m + 1, q, m); } else if n / m > q { Times(q + 1, n / m, m); }
  }

  lemma {:induction false} StepKeepsCounting(c: Config, t: Trace, e: Event, i: nat)
    requires Counting(c, t, i) && OnlyRow(c, [e], i)
    ensures Stepped(c, t.s, e, i)
    ensures var r := Step(c, t.s, e);
            Counting(c, Trace(r.s, t.seen + r.seen), i) && Wrongs(t.seen + r.seen) == Wrongs(t.seen) + Wrongs(r.seen)
  {
    hide Step, AsksElsewhere;
    StepCounts(c, t.s, e, i);
    WrongsAppend(t.seen, Step(c, t.s, e).seen);
    NextOfRest(Wrongs(t.seen), Limit(c, i));
  }

  lemma {:induction false} RunKeepsCounting(c: Config, t: Trace, es: seq<Event>, i: nat)
    requires Counting(c, t, i) && OnlyRow(c, es, i)
    ensures Counting(c, Run(c, t, es), i)
    decreases es
  {
    hide Step, AsksElsewhere, Wrongs, CheckOk;
    if es != [] {
      var r := Step(c, t.s, es[0]);
      assert OnlyRow(c, [es[0]], i) && OnlyRow(c, es[1..], i);
      StepKeepsCounting(c, t, es[0], i);
      RunKeepsCounting(c, Trace(r.s, t.seen + r.seen), es[1..], i);
    }
  }

  lemma {:induction false} StartsCounting(c: Config, protocols: nat, i: nat)
    requires c.Valid() && i < |c.rows|
    ensures Counting(c, Trace(Init(c, protocols), []), i)
  {
  }

  // In every run from start-up in which only row i is asked, whatever good keys and delays it holds:
  // the row is delayed right after every Limit-th wrong key, for all of its delay time, and after no
  // other wrong key.
  lemma {:induction false} EveryLimitthWrongKeyDelays(c: Config, protocols: nat, es: seq<Event>, e: Event, i: nat)
    requires c.Valid() && OnlyRow(c, es, i) && OnlyRow(c, [e], i)
    requires Wrongs(Step(c, Run(c, Trace(Init(c, protocols), []), es).s, e).seen) > 0
    ensures var t := Run(c, Trace(Init(c, protocols), []), es);
            var r := Step(c, t.s, e);
            var last := (Wrongs(t.seen) + 1) % Limit(c, i) == 0;
            && Wrongs(t.seen + r.seen) == Wrongs(t.seen) + 1
            && (r.s.checks[i].delaying <==> last && c.rows[i].delayTime >= c.period)
            && (r.s.checks[i].delaying ==> r.s.checks[i].timer == c.rows[i].delayTime)
            && r.code == (if last && c.rows[i].delayTime > 0 then ExceededNumberOfAttempts else InvalidKey)
  {
    StartsCounting(c, protocols, i);
    RunKeepsCounting(c, Trace(Init(c, protocols), []), es, i);
    hide Step, Run, Init, AsksElsewhere;
    var t := Run(c, Trace(Init(c, protocols), []), es);
    StepKeepsCounting(c, t, e, i);
    NextOfRest(Wrongs(t.seen), Limit(c, i));
  }

  // In any state, whichever rows have been asked: a wrong key is counted for the row that was asked for
  // a seed last, up to the limit of the row its seed came from; the delay is that of the former.
  lemma {:induction false} WrongKeyCountsForTheLastRow(c: Config, s: State, data: seq<byte>, txRoom: nat,
                                                       seed: SeedResult)
    requires c.Valid() && Shape(c, s) && s.active.Some?
    requires exists r, level :: KeyJudged(r, level, false) in Step(c, s, Request(data, txRoom, seed, false)).seen
    ensures var t := Step(c, s, Request(data, txRoom, seed, false)).s;
            var before, after := s.checks[s.current], t.checks[s.current];
            var limit := c.rows[s.requestedRow].attemptsBeforeDelay as nat;
            && s.requested && !t.requested && t.levels == s.levels
            && (forall k | 0 <= k < |c.rows| && k != s.current :: t.checks[k] == s.checks[k])
            && !before.delaying
            && (before.attempts + 1 < limit ==> after == before.(attempts := before.attempts + 1))
            && (before.attempts + 1 >= limit ==>
                  && after.attempts == 0 && (after.delaying <==> c.rows[s.current].delayTime >= c.period)
                  && (after.delaying ==> after.timer == c.rows[s.current].delayTime))
  {
  }

  // ---------- The rate of wrong keys ----------

  // The wrong keys that fit into a number of ticks: Limit of them at once, then Limit more each time
  // a delay has run out.
  function Budget(c: Config, i: nat, ticks: nat): nat
    requires c.Valid() && i < |c.rows| && DelayTicks(c, i) > 0
  {
    Limit(c, i) * (ticks / DelayTicks(c, i) + 1)
  }

  // The same from a given check on.
  function BudgetFrom(c: Config, i: nat, check: Check, ticks: nat): int
    requires c.Valid() && i < |c.rows| && DelayTicks(c, i) > 0
  {
    if !check.delaying then Budget(c, i, ticks) - check.attempts
    else if ticks < check.timer / c.period then 0
    else Budget(c, i, ticks - check.timer / c.period)
  }

  lemma {:induction false} BudgetGrows(c: Config, i: nat, less: nat, ticks: nat)
    requires c.Valid() && i < |c.rows| && DelayTicks(c, i) > 0 && less <= ticks
    ensures Limit(c, i) <= Budget(c, i, less) <= Budget(c, i, ticks)
  {
    var d := DelayTicks(c, i);
    FitsExactly(less, d, less / d);
    FitsExactly(ticks, d, less / d);
    Scaled(Limit(c, i), 1, less / d + 1);
    Scaled(Limit(c, i), less / d + 1, ticks / d + 1);
  }

  lemma {:induction false} Scaled(l: nat, m: nat, n: nat)
    requires m <= n
    ensures l * m <= l * n
  {
  }

  // A delay uses up one share of the budget.
  lemma {:induction false} BudgetShare(c: Config, i: nat, ticks: nat)
    requires c.Valid() && i < |c.rows| && DelayTicks(c, i) > 0
    ensures Budget(c, i, ticks)
            == Limit(c, i) + if ticks < DelayTicks(c, i) then 0 else Budget(c, i, ticks - DelayTicks(c, i))
  {
    var d := DelayTicks(c, i);
    if ticks < d {
      assert ticks / d == 0;
    } else {
      OneLess(ticks, d);
      assert Limit(c, i) * (ticks / d + 1) == Limit(c, i) * (ticks / d) + Limit(c, i);
    }
  }

  lemma {:induction false} OneLess(n: nat, d: nat)
    requires 0 < d <= n
    ensures (n - d) / d + 1 == n / d
  {
    var q := (n - d) / d;
    FitsExactly(n - d, d, q);
    FitsExactly(n - d, d, q + 1);
    FitsExactly(n, d, q + 1);
    FitsExactly(n, d, q + 2);
  }

  lemma {:induction false} TickSpends(c: Config, i: nat, check: Check, ticks: nat)
    requires c.Valid() && i < |c.rows| && DelayTicks(c, i) > 0 && CheckOk(c, check, i)
    ensures BudgetFrom(c, i, TickCheck(c, check), ticks) <= BudgetFrom(c, i, check, ticks + 1)
  {
    BudgetGrows(c, i, ticks, ticks + 1);
    if check.delaying {
      FitsExactly(check.timer, c.period, 1);
      FitsExactly(check.timer, c.period, 2);
      OneLess(check.timer, c.period);
    }
    hide Budget, Limit;
  }

  lemma {:induction false} WrongKeySpends(c: Config, i: nat, before: Check, after: Check, ticks: nat)
    requires c.Valid() && i < |c.rows| && DelayTicks(c, i) > 0
    requires CheckOk(c, before, i) && !before.delaying && Noted(c, before, after, i)
    ensures 1 + BudgetFrom(c, i, after, ticks) <= BudgetFrom(c, i, before, ticks)
  {
    FitsExactly(c.rows[i].delayTime, c.period, 1);
    BudgetShare(c, i, ticks);
    hide Budget, Limit;
  }

  // One event spends no more than its wrong keys, or its tick, leave.
  lemma {:induction false} StepSpends(c: Config, t: Trace, e: Event, i: nat, ticks: nat)
    requires Counting(c, t, i) && OnlyRow(c, [e], i) && DelayTicks(c, i) > 0
    ensures var r := Step(c, t.s, e);
            Wrongs(r.seen) + BudgetFrom(c, i, r.s.checks[i], ticks)
            <= BudgetFrom(c, i, t.s.checks[i], ticks + if e.TimerMain? then 1 else 0)
  {
    StepKeepsCounting(c, t, e, i);
    WrongOnlyOnRequest(c, t.s, e);
    var r := Step(c, t.s, e);
    hide Step, AsksElsewhere, Budget, Wrongs, BudgetFrom, TickCheck, Noted, CheckOk;
    if e.TimerMain? {
      TickSpends(c, i, t.s.checks[i], ticks);
    } else if Wrongs(r.seen) > 0 {
      WrongKeySpends(c, i, t.s.checks[i], r.s.checks[i], ticks);
    }
  }

  lemma {:induction false} WrongOnlyOnRequest(c: Config, s: State, e: Event)
    requires c.Valid() && Shape(c, s)
    ensures e.TimerMain? ==> Wrongs(Step(c, s, e).seen) == 0
  {
  }

  lemma {:induction false} WithinBudget(c: Config, i: nat, check: Check, ticks: nat)
    requires c.Valid() && i < |c.rows| && DelayTicks(c, i) > 0 && CheckOk(c, check, i)
    ensures 0 <= BudgetFrom(c, i, check, ticks) <= Budget(c, i, ticks)
  {
    BudgetGrows(c, i, ticks, ticks);
    if check.delaying && check.timer / c.period <= ticks { BudgetGrows(c, i, ticks - check.timer / c.period, ticks); }
    hide Budget, Limit;
  }

  lemma {:induction false} RunSpends(c: Config, t: Trace, es: seq<Event>, i: nat)
    requires Counting(c, t, i) && OnlyRow(c, es, i) && DelayTicks(c, i) > 0
    ensures Wrongs(Run(c, t, es).seen) - Wrongs(t.seen) <= BudgetFrom(c, i, t.s.checks[i], Ticks(es))
    decreases es
  {
    hide Step, AsksElsewhere, Budget, BudgetFrom, Wrongs, CheckOk;
    if es == [] {
      WithinBudget(c, i, t.s.checks[i], 0);
    } else {
      var r := Step(c, t.s, es[0]);
      assert OnlyRow(c, [es[0]], i) && OnlyRow(c, es[1..], i);
      StepKeepsCounting(c, t, es[0], i);
      StepSpends(c, t, es[0], i, Ticks(es[1..]));
      RunSpends(c, Trace(r.s, t.seen + r.seen), es[1..], i);
    }
  }

  // In every stretch of every such run: no more than Limit wrong keys are judged for each delay that
  // fits into its ticks, and Limit more.
  lemma {:induction false} WrongKeysAreBounded(c: Config, protocols: nat, es: seq<Event>, stretch: seq<Event>, i: nat)
    requires c.Valid() && OnlyRow(c, es, i) && OnlyRow(c, stretch, i) && c.rows[i].delayTime >= c.period
    ensures var t := Run(c, Trace(Init(c, protocols), []), es);
            Wrongs(Run(c, t, stretch).seen) - Wrongs(t.seen)
            <= Limit(c, i) * (Ticks(stretch) / (c.rows[i].delayTime / c.period) + 1)
  {
    StartsCounting(c, protocols, i);
    RunKeepsCounting(c, Trace(Init(c, protocols), []), es, i);
    FitsExactly(c.rows[i].delayTime, c.period, 1);
    var t := Run(c, Trace(Init(c, protocols), []), es);
    hide Run, Init, AsksElsewhere, Wrongs, CheckOk, BudgetFrom;
    RunSpends(c, t, stretch, i);
    WithinBudget(c, i, t.s.checks[i], Ticks(stretch));
  }

  // ---------- The delay after start-up ----------

  // From start-up on, before the (delayTimeOnBoot / period)-th tick, the row gives no seed and
  // judges no key; at that tick its delay ends.
  lemma {:induction false} NoSeedAfterBoot(c: Config, protocols: nat, es: seq<Event>, i: nat)
    requires c.Valid() && OnlyRow(c, es, i) && c.rows[i].delayTimeOnBoot >= c.period
    requires Ticks(es) < c.rows[i].delayTimeOnBoot / c.period
    ensures var t := Run(c, Trace(Init(c, protocols), []), es);
            && (forall k | 0 <= k < |t.seen| :: t.seen[k].SessionChanged?)
            && t.s.checks[i].delaying
            && (Tick(c, t.s).checks[i].delaying <==> Ticks(es) + 1 < c.rows[i].delayTimeOnBoot / c.period)
  {
    var t := Trace(Init(c, protocols), []);
    DelayEndsExactly(c, t.s.checks[i], Ticks(es));
    DelayEndsExactly(c, t.s.checks[i], Ticks(es) + 1);
    QuietWithoutSeed(c, t, es, i);
  }

  lemma {:induction false} QuietWithoutSeed(c: Config, t: Trace, es: seq<Event>, i: nat)
    requires c.Valid() && Shape(c, t.s) && OnlyRow(c, es, i) && !t.s.requested
    requires TickTimes(c, t.s.checks[i], Ticks(es)).delaying
    requires forall k | 0 <= k < |t.seen| :: t.seen[k].SessionChanged?
    ensures var r := Run(c, t, es);
            && r.s.checks[i] == TickTimes(c, t.s.checks[i], Ticks(es))
            && forall k | 0 <= k < |r.seen| :: r.seen[k].SessionChanged?
    decreases es
  {
    hide Step, AsksElsewhere, TickCheck;
    if es != [] {
      assert OnlyRow(c, [es[0]], i) && OnlyRow(c, es[1..], i);
      StillDelaying(c, t.s.checks[i], Ticks(es));
      StepWithoutSeed(c, t.s, es[0], i);
      TickFirst(c, t.s.checks[i], Ticks(es[1..]));
      var r := Step(c, t.s, es[0]);
      QuietWithoutSeed(c, Trace(r.s, t.seen + r.seen), es[1..], i);
    }
  }

  lemma {:induction false} StepWithoutSeed(c: Config, s: State, e: Event, i: nat)
    requires c.Valid() && Shape(c, s) && OnlyRow(c, [e], i) && !s.requested && s.checks[i].delaying
    ensures var r := Step(c, s, e);
            && !r.s.requested && (forall k | 0 <= k < |r.seen| :: r.seen[k].SessionChanged?)
            && r.s.checks[i] == if e.TimerMain? then TickCheck(c, s.checks[i]) else s.checks[i]
  {
    assert [e][0] == e;
    if e.Request? && |e.data| >= 2 && 0x01 <= e.data[1] as nat <= 0x42 && e.data[1] as nat % 2 == 1 {
      var k := FindRow(c.rows, (e.data[1] as nat + 1) / 2);
      if k < |c.rows| { assert AsksSeedOf(c, e, k); }
    }
    hide FindRow, AsksElsewhere, TickCheck;
  }

  // ---------- What a key is worth ----------

  // The two requests of one exchange for security row i.
  function AskSeed(c: Config, i: nat, record: seq<byte>): seq<byte>
    requires i < |c.rows| && 1 <= c.rows[i].level <= 0x21
  {
    [0x27, (2 * c.rows[i].level - 1) as byte] + record
  }

  function GiveKey(c: Config, i: nat, key: seq<byte>): seq<byte>
    requires i < |c.rows| && 1 <= c.rows[i].level <= 0x21
  {
    [0x27, (2 * c.rows[i].level) as byte] + key
  }

  predicate CanExchange(c: Config, s: State, i: nat, record: seq<byte>, key: seq<byte>, txRoom: nat) {
    && i < |c.rows| && i < |s.checks| && !s.checks[i].delaying
    && (forall k | 0 <= k < i :: c.rows[k].level != c.rows[i].level)
    && var row := c.rows[i];
       1 <= row.level <= 0x21 && row.hasGetSeed && row.hasCompareKey
       && |record| == row.recordSize && |key| == row.keySize && 2 + row.seedSize <= txRoom
  }

  // A seed and then a good key unlock the level on the active row, and nothing else; a bad key
  // unlocks nothing. Either way the seed is spent.
  lemma {:induction false} GoodKeyUnlocks(c: Config, s: State, i: nat, record: seq<byte>, key: seq<byte>, txRoom: nat,
                                          keyOk: bool)
    requires c.Valid() && Shape(c, s) && s.active.Some? && CanExchange(c, s, i, record, key, txRoom)
    requires s.levels[s.active.value] != c.rows[i].level
    ensures var level, a := c.rows[i].level, s.active.value;
            var asked := Step(c, s, Request(AskSeed(c, i, record), txRoom, SeedOk, false));
            var sent := Step(c, asked.s, Request(GiveKey(c, i, key), txRoom, SeedRefused, keyOk));
            && asked.code.Positive? && asked.seen == [SeedGiven(level)]
            && asked.s.levels == s.levels && asked.s.sessions == s.sessions && asked.s.checks == s.checks
            && sent.seen == [KeyJudged(a, level, keyOk)] && !sent.s.requested
            && sent.s.sessions == s.sessions && sent.s.active == s.active
            && sent.s.levels == (if keyOk then s.levels[a := level] else s.levels)
            && (sent.code.Positive? <==> keyOk) && (keyOk ==> sent.s.checks == s.checks)
  {
    FirstRow(c.rows, i);
  }

  lemma {:induction false} FirstRow(rows: seq<SecurityRow>, i: nat)
    requires i < |rows| && forall k | 0 <= k < i :: rows[k].level != rows[i].level
    ensures FindRow(rows, rows[i].level) == i
  {
  }

  // Requests without a sub-function, with one out of range, or for the seed of a level that is not
  // configured change nothing.
  lemma {:induction false} NoSuchRequest(c: Config, s: State, data: seq<byte>, txRoom: nat, result: SeedResult,
                                         keyOk: bool)
    requires c.Valid() && Shape(c, s) && s.active.Some?
    ensures var r := Step(c, s, Request(data, txRoom, result, keyOk));
            && (|data| < 2 ==> r == Outcome(s, IncorrectLength, []))
            && (|data| >= 2 && !(1 <= data[1] <= 0x42) ==> r == Outcome(s, SubFunctionNotSupported, []))
            && (|data| >= 2 && data[1] <= 0x42 && data[1] % 2 == 1
                && (forall k | 0 <= k < |c.rows| :: 2 * c.rows[k].level != data[1] as nat + 1) ==>
                  r == Outcome(s, SubFunctionNotSupported, []))
  {
    hide CompareKey;
  }

  // The first security row of its level, so the one that is found.
  predicate FirstOfLevel(c: Config, i: nat) {
    i < |c.rows| && 1 <= c.rows[i].level <= 0x21 && forall k | 0 <= k < i :: c.rows[k].level != c.rows[i].level
  }

  // What a seed request that gives no seed is answered; it only notes which row was asked.
  lemma {:induction false} SeedRefusals(c: Config, s: State, i: nat, record: seq<byte>, txRoom: nat, result: SeedResult)
    requires c.Valid() && Shape(c, s) && s.active.Some? && FirstOfLevel(c, i)
    ensures var row, delayed := c.rows[i], s.checks[i].delaying;
            var r := Step(c, s, Request(AskSeed(c, i, record), txRoom, result, false));
            var unlocked := s.levels[s.active.value] == row.level;
            var fits := |record| == row.recordSize && 2 + row.seedSize <= txRoom;
            && (!(result.SeedOk? && fits && !delayed && !unlocked && row.hasGetSeed) ==>
                  r.s == s.(current := i) && r.seen == [])
            && (delayed ==> r.code == RequiredTimeDelayNotExpired)
            && (!delayed && |record| != row.recordSize ==> r.code == IncorrectLength)
            && (!delayed && |record| == row.recordSize && !fits ==> r.code == ResponseTooLong)
            && (!delayed && fits && !unlocked && !row.hasGetSeed ==> r.code == IncorrectLength)
            && (!delayed && fits && !unlocked && row.hasGetSeed ==>
                  (result.SeedPending? ==> r.code == ResponsePending) && (result.SeedRefused? ==> r.code == SeedError))
  {
    FirstRow(c.rows, i);
    hide CompareKey;
  }

  // What a key that is not judged is answered, though its seed is there; the seed stays.
  lemma {:induction false} KeyRefusals(c: Config, s: State, i: nat, key: seq<byte>, keyOk: bool)
    requires c.Valid() && Shape(c, s) && s.active.Some? && i < |c.rows| && 1 <= c.rows[i].level <= 0x21
    requires s.requested && s.requestedRow == i
    ensures var row, delayed := c.rows[i], s.checks[s.current].delaying;
            var r := Step(c, s, Request(GiveKey(c, i, key), 0, SeedRefused, keyOk));
            && (r.seen == [] <==> delayed || |key| != row.keySize || !row.hasCompareKey)
            && (r.seen == [] ==>
                  && r.s == s
                  && r.code == if delayed then RequiredTimeDelayNotExpired
                               else if |key| != row.keySize then IncorrectLength else ConditionsNotCorrect)
  {
    hide GetSeed, CountWrongKey;
  }

  // The level that is unlocked already needs no seed, and gives none away.
  lemma {:induction false} UnlockedNeedsNoSeed(c: Config, s: State, i: nat, record: seq<byte>, key: seq<byte>,
                                               txRoom: nat, result: SeedResult)
    requires c.Valid() && Shape(c, s) && s.active.Some? && CanExchange(c, s, i, record, key, txRoom)
    requires s.levels[s.active.value] == c.rows[i].level
    ensures var asked := Step(c, s, Request(AskSeed(c, i, record), txRoom, result, false));
            asked.code.Positive? && asked.seen == [] && asked.s == s.(current := i)
  {
    FirstRow(c.rows, i);
  }

  // Without a seed for its level no key is judged, and nothing changes.
  lemma {:induction false} KeyNeedsItsSeed(c: Config, s: State, i: nat, key: seq<byte>, keyOk: bool)
    requires c.Valid() && Shape(c, s) && s.active.Some? && i < |c.rows| && 1 <= c.rows[i].level <= 0x21
    requires !s.requested || s.requestedLevel != c.rows[i].level
    ensures Step(c, s, Request(GiveKey(c, i, key), 0, SeedRefused, keyOk)) == Outcome(s, RequestSequenceError, [])
  {
  }

  // ---------- Sessions ----------

  lemma {:induction false} StartsLocked(c: Config, protocols: nat, r: nat)
    requires c.Valid() && r < protocols
    ensures var s := Init(c, protocols);
            s.sessions[r] == 1 && s.levels[r] == 0 && s.active.None? && !s.requested
  {
  }

  // Which session each row is in and which protocol is active after an event, and when a pending
  // seed is dropped by it.
  lemma {:induction false} SessionsFollow(c: Config, s: State, e: Event)
    requires c.Valid() && Shape(c, s)
    ensures var t := Step(c, s, e).s;
            && (e.Start? && e.row < |s.sessions| ==>
                  t.active == Some(e.row) && t.sessions == s.sessions[e.row := if e.obd then 5 else 1])
            && (e.SetSession? && s.active.Some? ==>
                  && t.active == s.active && t.sessions == s.sessions[s.active.value := e.session]
                  && (t.requested <==> s.requested && s.sessions[s.active.value] != 1))
            && (e.Expire? && e.row < |s.sessions| && s.sessions[e.row] != 1 ==>
                  t.sessions == s.sessions[e.row := 1] && t.active == if e.stop then None else s.active)
            && (e.GiveWay? ==> t.active.None? && t.sessions == s.sessions
                               && (s.active.Some? ==> (t.requested <==> s.requested && !e.timedOut)))
            && (e.Request? || e.TimerMain? ==> t.sessions == s.sessions && t.active == s.active)
  {
  }
}
