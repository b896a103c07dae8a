/** Debouncing of monitor reports: counter based and time based, and the fault detection counter
    each of them shows to the outside. */
module Debounce {
  import opened Prelude

  newtype sint8 = x: int | -0x80 <= x < 0x80
  newtype sint16 = x: int | -0x8000 <= x < 0x8000
  newtype sint32 = x: int | -0x8000_0000 <= x < 0x8000_0000
  type uint32 = x: nat | x < 0x1_0000_0000

  const WORDS := 0x1_0000_0000

  datatype Status = Passed | Failed | Prepassed | Prefailed | Unknown

  // Division as in C: towards zero.
  function Quotient(a: int, b: int): int
    requires b > 0
  {
    if a >= 0 then a / b else -(-a / b)
  }

  function Max(a: int, b: int): int { if a > b then a else b }

  function Min(a: int, b: int): int { if a < b then a else b }

  // ---------- Counter based ----------

  datatype CounterConfig = CounterConfig(failed: sint16, passed: sint16, increment: uint16, decrement: uint16,
                                         jumpUp: bool, jumpUpValue: sint16, jumpDown: bool, jumpDownValue: sint16) {
    predicate Valid() { passed < failed }
  }

  predicate Between(c: CounterConfig, f: int) { c.passed as int <= f <= c.failed as int }

  const UDS_FAILED := 127
  const UDS_PASSED := -128
  const UDS_RANGE := 255

  // The counter as the tester sees it: [passed, failed] mapped onto [-128, 127].
  function UdsCounter(c: CounterConfig, f: int): int
    requires c.Valid()
  {
    var range := c.failed as int - c.passed as int;
    Quotient(UDS_RANGE * (f - c.passed as int) + UDS_PASSED * range, range)
  }

  lemma {:induction false} QuotientBounds(a: int, b: int)
    requires b > 0
    ensures a >= 0 ==> Quotient(a, b) * b <= a < Quotient(a, b) * b + b
    ensures a < 0 ==> Quotient(a, b) * b - b < a <= Quotient(a, b) * b
  {
  }

  lemma {:induction false} LessTimes(x: int, y: int, b: int)
    requires b > 0 && x * b < y * b
    ensures x < y
  {
  }

  // Where a quotient lies, from where its dividend lies.
  lemma {:induction false} QuotientBelow(a: int, d: int, x: int)
    requires d > 0 && a < x * d && x >= 1
    ensures Quotient(a, d) < x
  {
    QuotientBounds(a, d);
    hide Quotient;
    var q := Quotient(a, d);
    if a < 0 {
      assert (q - 1) * d == q * d - d;
      LessTimes(q - 1, 0, d);
    } else {
      LessTimes(q, x, d);
    }
  }

  lemma {:induction false} QuotientAbove(a: int, d: int, x: int)
    requires d > 0 && a > x * d && x <= -1
    ensures Quotient(a, d) > x
  {
    QuotientBounds(a, d);
    hide Quotient;
    var q := Quotient(a, d);
    if a >= 0 {
      assert (q + 1) * d == q * d + d;
      LessTimes(0, q + 1, d);
    } else {
      LessTimes(x, q, d);
    }
  }

  lemma {:induction false} Sandwiched(q: int, x: int, d: int)
    requires d > 0 && (q * d <= x * d < q * d + d || q * d - d < x * d <= q * d)
    ensures q == x
  {
    if q > x { TimesMonotone(x + 1, q, d); }
    if q < x { TimesMonotone(q + 1, x, d); }
    assert (x + 1) * d == x * d + d && (q + 1) * d == q * d + d;
  }

  lemma {:induction false} QuotientExact(x: int, d: int)
    requires d > 0
    ensures Quotient(x * d, d) == x
  {
    QuotientBounds(x * d, d);
    hide Quotient;
    Sandwiched(Quotient(x * d, d), x, d);
  }

  lemma {:induction false} QuotientMonotone(a: int, b: int, d: int)
    requires d > 0 && a <= b
    ensures Quotient(a, d) <= Quotient(b, d)
  {
    if a >= 0 {
      NaturalMonotone(a, b, d);
    } else if b < 0 {
      NaturalMonotone(-b, -a, d);
    } else {
      NaturalQuotient(b, d);
      NaturalQuotient(-a, d);
    }
  }

  lemma {:induction false} NaturalMonotone(a: nat, b: nat, d: nat)
    requires d > 0 && a <= b
    ensures a / d <= b / d
  {
    var x, y := a / d, b / d;
    assert x * d <= a && b < y * d + d;
    if x > y {
      TimesMonotone(y + 1, x, d);
    }
  }

  // The counter stays in its range; it grows with the internal one; and it is 127, or -128,
  // exactly at the failed, or passed, threshold.
  lemma {:induction false} UdsCounterRange(c: CounterConfig, f: int)
    requires c.Valid() && Between(c, f)
    ensures UDS_PASSED <= UdsCounter(c, f) <= UDS_FAILED
    ensures UdsCounter(c, f) == UDS_FAILED <==> f == c.failed as int
    ensures UdsCounter(c, f) == UDS_PASSED <==> f == c.passed as int
  {
    hide Quotient;
    var r := c.failed as int - c.passed as int;
    var t := UDS_RANGE * (f - c.passed as int) + UDS_PASSED * r;
    QuotientExact(127, r);
    QuotientExact(-128, r);
    if f < c.failed as int { QuotientBelow(t, r, 127); }
    if f > c.passed as int { QuotientAbove(t, r, -128); }
  }

  // In between it is proportional, cut off towards zero.
  lemma {:induction false} UdsCounterTruncates(c: CounterConfig, f: int)
    requires c.Valid()
    ensures var range := c.failed as int - c.passed as int;
            var exact, shown := 255 * (f - c.passed as int) - 128 * range, UdsCounter(c, f) * range;
            (exact >= 0 ==> shown <= exact < shown + range) && (exact < 0 ==> shown - range < exact <= shown)
  {
    var range := c.failed as int - c.passed as int;
    QuotientBounds(255 * (f - c.passed as int) - 128 * range, range);
    hide Quotient;
  }

  lemma {:induction false} UdsCounterMonotone(c: CounterConfig, f: int, g: int)
    requires c.Valid() && Between(c, f) && Between(c, g) && f <= g
    ensures UdsCounter(c, f) <= UdsCounter(c, g)
  {
    var r := c.failed as int - c.passed as int;
    QuotientMonotone(UDS_RANGE * (f - c.passed as int) + UDS_PASSED * r,
                     UDS_RANGE * (g - c.passed as int) + UDS_PASSED * r, r);
  }

  datatype Counter = Counter(internal: int, uds: int, maxUds: int)

  // One report: the internal counter after it.
  function Count(c: CounterConfig, f: int, report: Status): int {
    match report
    case Prefailed =>
      if f < c.failed as int then
        var from := if c.jumpUp && f < c.jumpUpValue as int then c.jumpUpValue as int else f;
        Min(from + c.increment as int, c.failed as int)
      else f
    case Prepassed =>
      if f > c.passed as int then
        var from := if c.jumpDown && f > c.jumpDownValue as int then c.jumpDownValue as int else f;
        Max(from - c.decrement as int, c.passed as int)
      else f
    case Failed => c.failed as int
    case Passed => c.passed as int
    case Unknown => f
  }

  function Verdict(c: CounterConfig, f: int, report: Status): Status {
    if f >= c.failed as int then Failed else if f <= c.passed as int then Passed else report
  }

  // The conversion (sint8)x.
  function ToSint8(x: int): (r: int)
    ensures -0x80 <= r < 0x80
    ensures -0x80 <= x < 0x80 ==> r == x
  {
    (x + 0x80) % 0x100 - 0x80
  }

  // The counter shown: outside the thresholds the cast to 8 bits may wrap.
  function Shown(c: CounterConfig, f: int): (uds: int)
    requires c.Valid()
  {
    ToSint8(UdsCounter(c, f))
  }

  lemma {:induction false} ShownBetween(c: CounterConfig, f: int)
    requires c.Valid() && Between(c, f)
    ensures Shown(c, f) == UdsCounter(c, f)
  {
    UdsCounterRange(c, f);
    hide UdsCounter;
  }

  function AfterReport(c: CounterConfig, s: Counter, report: Status): (r: (Counter, Status))
    requires c.Valid()
  {
    var f := Count(c, s.internal, report);
    var uds := Shown(c, f);
    (Counter(f, uds, Max(s.maxUds, uds)), Verdict(c, f, report))
  }

  // resetDebounceCounter, also where 0 is not between the thresholds.
  function AtReset(c: CounterConfig): Counter
    requires c.Valid()
  {
    Counter(0, Shown(c, 0), Shown(c, 0))
  }

  // A division does not leave the range of its dividend.
  lemma {:induction false} QuotientSmaller(a: int, b: int)
    requires b > 0
    ensures a >= 0 ==> 0 <= a / b <= a
    ensures a < 0 ==> 0 <= -a / b <= -a
  {
    NaturalQuotient(if a >= 0 then a else -a, b);
  }

  lemma {:induction false} NaturalQuotient(a: nat, b: nat)
    requires b > 0
    ensures 0 <= a / b <= a
  {
    var q := a / b;
    assert q * b <= a;
    if q > a { TimesMonotone(1, b, q); }
  }

  function Run(c: CounterConfig, s: Counter, reports: seq<Status>, n: nat): Counter
    requires c.Valid() && n <= |reports|
  {
    if n == 0 then s else AfterReport(c, Run(c, s, reports, n - 1), reports[n - 1]).0
  }

  lemma {:induction false} CountStaysBetween(c: CounterConfig, f: int, report: Status)
    requires c.Valid() && Between(c, f)
    ensures Between(c, Count(c, f, report))
    ensures Verdict(c, Count(c, f, report), report) == Failed <==> Count(c, f, report) == c.failed as int
    ensures Verdict(c, Count(c, f, report), report) == Passed <==> Count(c, f, report) == c.passed as int
  {
  }

  // Over every history: the counter stays between the thresholds, the verdict is FAILED
  // (PASSED) exactly at the failed (passed) threshold, and maxUds is the largest counter shown
  // so far.
  lemma {:induction false} History(c: CounterConfig, s: Counter, reports: seq<Status>, n: nat)
    requires c.Valid() && Between(c, s.internal) && s.uds == s.maxUds == UdsCounter(c, s.internal) && n <= |reports|
    ensures var r := Run(c, s, reports, n);
            && Between(c, r.internal) && r.uds == UdsCounter(c, r.internal)
            && (forall k | 0 <= k <= n :: Run(c, s, reports, k).uds <= r.maxUds)
            && (exists k :: 0 <= k <= n && Run(c, s, reports, k).uds == r.maxUds)
    ensures n > 0 ==>
              var before := Run(c, s, reports, n - 1);
              var verdict := AfterReport(c, before, reports[n - 1]).1;
              && (verdict == Failed <==> Run(c, s, reports, n).internal == c.failed as int)
              && (verdict == Passed <==> Run(c, s, reports, n).internal == c.passed as int)
  {
    hide UdsCounter, Shown, Count, Verdict;
    if n == 0 {
      assert Run(c, s, reports, 0).uds == s.maxUds;
    } else {
      History(c, s, reports, n - 1);
      var before := Run(c, s, reports, n - 1);
      CountStaysBetween(c, before.internal, reports[n - 1]);
      var k :| 0 <= k <= n - 1 && Run(c, s, reports, k).uds == before.maxUds;
      ShownBetween(c, Count(c, before.internal, reports[n - 1]));
      assert Run(c, s, reports, n).uds == UdsCounter(c, Count(c, before.internal, reports[n - 1]));
    }
  }

  lemma {:induction false} CountMoves(c: CounterConfig, f: int, report: Status)
    requires c.Valid()
    ensures var g := Count(c, f, report);
            var verdict := Verdict(c, g, report);
            && (c.passed as int < g < c.failed as int ==> verdict == report)
            && match report
            case Failed => verdict == Failed && g == c.failed as int
            case Passed => verdict == Passed && g == c.passed as int
            case Prefailed => f <= g && (c.increment > 0 && f >= c.passed as int ==> verdict != Passed)
                              && (f < g < c.failed as int ==> g - f >= c.increment as int)
            case Prepassed => g <= f && (c.decrement > 0 && f <= c.failed as int ==> verdict != Failed)
                              && (c.passed as int < g < f ==> f - g >= c.decrement as int)
            case Unknown => g == f
  {
  }

  // What each kind of report does, in every history from any counter: FAILED (PASSED) decides at
  // once, PREFAILED (PREPASSED) never moves the counter the wrong way, any other report leaves it.
  lemma {:induction false} EachReport(c: CounterConfig, s: Counter, reports: seq<Status>, n: nat)
    requires c.Valid() && 0 < n <= |reports|
    ensures var before, after := Run(c, s, reports, n - 1), Run(c, s, reports, n);
            var verdict := AfterReport(c, before, reports[n - 1]).1;
            && (c.passed as int < after.internal < c.failed as int ==> verdict == reports[n - 1])
            && match reports[n - 1]
            case Failed => verdict == Failed && after.internal == c.failed as int && after.uds == 127 <= after.maxUds
            case Passed => verdict == Passed && after.internal == c.passed as int && after.uds == -128
            case Prefailed => before.internal <= after.internal
                              && (c.increment > 0 && before.internal >= c.passed as int ==> verdict != Passed)
                              && (before.internal < after.internal < c.failed as int ==>
                                    after.internal - before.internal >= c.increment as int)
            case Prepassed => after.internal <= before.internal
                              && (c.decrement > 0 && before.internal <= c.failed as int ==> verdict != Failed)
                              && (c.passed as int < after.internal < before.internal ==>
                                    before.internal - after.internal >= c.decrement as int)
            case Unknown => after.internal == before.internal
  {
    ShownBetween(c, c.failed as int);
    ShownBetween(c, c.passed as int);
    UdsCounterRange(c, c.failed as int);
    UdsCounterRange(c, c.passed as int);
    CountMoves(c, Run(c, s, reports, n - 1).internal, reports[n - 1]);
    hide UdsCounter, Shown, Count, Verdict;
  }

  lemma {:induction false} HistoryShown(c: CounterConfig, s: Counter, reports: seq<Status>, n: nat)
    requires c.Valid() && Between(c, s.internal) && s.uds == s.maxUds == UdsCounter(c, s.internal) && n <= |reports|
    ensures var r := Run(c, s, reports, n); Between(c, r.internal) && r.uds == UdsCounter(c, r.internal)
  {
    History(c, s, reports, n);
    hide UdsCounter, Run;
  }

  // And so does the counter shown, from between the thresholds.
  lemma {:induction false} EachReportShown(c: CounterConfig, s: Counter, reports: seq<Status>, n: nat)
    requires c.Valid() && Between(c, s.internal) && s.uds == s.maxUds == UdsCounter(c, s.internal) && 0 < n <= |reports|
    ensures var before, after := Run(c, s, reports, n - 1).uds, Run(c, s, reports, n).uds;
            match reports[n - 1]
            case Failed | Prefailed => before <= after
            case Passed | Prepassed => after <= before
            case Unknown => after == before
  {
    HistoryShown(c, s, reports, n - 1);
    HistoryShown(c, s, reports, n);
    EachReport(c, s, reports, n);
    hide UdsCounter, AfterReport, Run;
    var before, after := Run(c, s, reports, n - 1).internal, Run(c, s, reports, n).internal;
    if before <= after { UdsCounterMonotone(c, before, after); }
    if after <= before { UdsCounterMonotone(c, after, before); }
  }

  // A reset starts from the internal counter 0; what is shown is its 8-bit cast, and the largest so far.
  lemma {:induction false} ResetStartsOver(c: CounterConfig)
    requires c.Valid()
    ensures var r := AtReset(c);
            && r.internal == 0 && r.uds == r.maxUds && -128 <= r.uds < 128
            && (UdsCounter(c, 0) - r.uds) % 256 == 0
            && (Between(c, 0) ==> r.uds == UdsCounter(c, 0))
  {
    if Between(c, 0) { ShownBetween(c, 0); }
    hide UdsCounter;
  }

  function CeilingOf(a: int, b: int): int
    requires b > 0
  {
    (a + b - 1) / b
  }

  lemma {:induction false} CeilingBounds(a: int, b: int)
    requires b > 0
    ensures (CeilingOf(a, b) - 1) * b < a <= CeilingOf(a, b) * b
  {
    var q := CeilingOf(a, b);
    assert q * b <= a + b - 1 < q * b + b;
    assert (q - 1) * b == q * b - b;
  }

  // Where the climb of consecutive PREFAILED reports starts.
  function ClimbFrom(c: CounterConfig, f: int): int {
    if c.jumpUp then Max(f, c.jumpUpValue as int) else f
  }

  function Repeat(report: Status, n: nat): (r: seq<Status>)
    ensures |r| == n && forall i | 0 <= i < n :: r[i] == report
  {
    seq(n, _ => report)
  }

  function Steps(k: nat, step: nat): nat { if k == 0 then 0 else Steps(k - 1, step) + step }

  lemma {:induction false} StepsTimes(k: nat, step: nat)
    ensures Steps(k, step) == k * step
  {
    if k > 0 {
      StepsTimes(k - 1, step);
      assert k * step == (k - 1) * step + step;
    }
  }

  lemma {:induction false} Climb(c: CounterConfig, s: Counter, n: nat, k: nat)
    requires c.Valid() && Between(c, s.internal) && s.internal < c.failed as int && 1 <= k <= n
    ensures Run(c, s, Repeat(Prefailed, n), k).internal
            == Min(ClimbFrom(c, s.internal) + Steps(k, c.increment as int), c.failed as int)
  {
    hide Shown, Count;
    var reports := Repeat(Prefailed, n);
    if k == 1 {
      assert Run(c, s, reports, 0) == s;
      FirstUp(c, s.internal);
    } else {
      Climb(c, s, n, k - 1);
      NextUp(c, ClimbFrom(c, s.internal), Steps(k - 1, c.increment as int));
    }
  }

  lemma {:induction false} FirstUp(c: CounterConfig, f: int)
    requires f < c.failed as int
    ensures Count(c, f, Prefailed) == Min(ClimbFrom(c, f) + c.increment as int, c.failed as int)
  {
  }

  lemma {:induction false} NextUp(c: CounterConfig, m: int, climbed: int)
    requires climbed >= 0 && (c.jumpUp ==> m >= c.jumpUpValue as int)
    ensures Count(c, Min(m + climbed, c.failed as int), Prefailed)
         == Min(m + climbed + c.increment as int, c.failed as int)
  {
  }

  // From below the threshold, exactly max(1, ceil((F - m) / inc)) consecutive PREFAILED reports
  // reach it, m being where the climb starts.
  lemma {:induction false} PrefailedReportsNeeded(c: CounterConfig, s: Counter, n: nat, k: nat)
    requires c.Valid() && Between(c, s.internal) && s.internal < c.failed as int && c.increment >= 1 && k <= n
    ensures Run(c, s, Repeat(Prefailed, n), k).internal == c.failed as int
            <==> k >= Max(1, CeilingOf(c.failed as int - ClimbFrom(c, s.internal), c.increment as int))
  {
    hide Shown, Count;
    var inc := c.increment as int;
    var d := c.failed as int - ClimbFrom(c, s.internal);
    var q := CeilingOf(d, inc);
    if k == 0 {
      assert Run(c, s, Repeat(Prefailed, n), 0) == s;
    } else {
      Climb(c, s, n, k);
      StepsTimes(k, inc);
      CeilingBounds(d, inc);
      if k >= q { TimesMonotone(q, k, inc); } else { TimesMonotone(k, q - 1, inc); }
    }
  }

  lemma {:induction false} TimesMonotone(x: int, y: int, b: int)
    requires b >= 0 && x <= y
    ensures x * b <= y * b
  {
  }

  // The mirror image, for PREPASSED reports.
  function DescentFrom(c: CounterConfig, f: int): int {
    if c.jumpDown then Min(f, c.jumpDownValue as int) else f
  }

  lemma {:induction false} Descent(c: CounterConfig, s: Counter, n: nat, k: nat)
    requires c.Valid() && Between(c, s.internal) && s.internal > c.passed as int && 1 <= k <= n
    ensures Run(c, s, Repeat(Prepassed, n), k).internal
            == Max(DescentFrom(c, s.internal) - Steps(k, c.decrement as int), c.passed as int)
  {
    hide Shown, Count;
    var reports := Repeat(Prepassed, n);
    if k == 1 {
      assert Run(c, s, reports, 0) == s;
      FirstDown(c, s.internal);
    } else {
      Descent(c, s, n, k - 1);
      NextDown(c, DescentFrom(c, s.internal), Steps(k - 1, c.decrement as int));
    }
  }

  lemma {:induction false} FirstDown(c: CounterConfig, f: int)
    requires f > c.passed as int
    ensures Count(c, f, Prepassed) == Max(DescentFrom(c, f) - c.decrement as int, c.passed as int)
  {
  }

  lemma {:induction false} NextDown(c: CounterConfig, m: int, gone: int)
    requires gone >= 0 && (c.jumpDown ==> m <= c.jumpDownValue as int)
    ensures Count(c, Max(m - gone, c.passed as int), Prepassed) == Max(m - gone - c.decrement as int, c.passed as int)
  {
  }

  lemma {:induction false} PrepassedReportsNeeded(c: CounterConfig, s: Counter, n: nat, k: nat)
    requires c.Valid() && Between(c, s.internal) && s.internal > c.passed as int && c.decrement >= 1 && k <= n
    ensures Run(c, s, Repeat(Prepassed, n), k).internal == c.passed as int
            <==> k >= Max(1, CeilingOf(DescentFrom(c, s.internal) - c.passed as int, c.decrement as int))
  {
    hide Shown, Count;
    var dec := c.decrement as int;
    var d := DescentFrom(c, s.internal) - c.passed as int;
    var q := CeilingOf(d, dec);
    if k == 0 {
      assert Run(c, s, Repeat(Prepassed, n), 0) == s;
    } else {
      Descent(c, s, n, k);
      StepsTimes(k, dec);
      CeilingBounds(d, dec);
      if k >= q { TimesMonotone(q, k, dec); } else { TimesMonotone(k, q - 1, dec); }
    }
  }

  class CounterDebouncer {
    const c: CounterConfig
    var internal: sint16
    var uds: sint8
    var maxUds: sint8

    ghost function State(): Counter
      reads this
    {
      Counter(internal as int, uds as int, maxUds as int)
    }

    ghost predicate Valid()
      reads this
    {
      c.Valid() && Between(c, internal as int)
    }

    constructor (c: CounterConfig)
      requires c.Valid()
      ensures this.c == c && State() == AtReset(c) && (Between(c, 0) ==> Valid())
    {
      this.c := c;
      var start := ToUds(c, 0);
      internal, uds, maxUds := 0, start, start;
    }

    // fdcInternalToUDSFdc. No step of it leaves the 32-bit range; between the thresholds its
    // result fits 8 bits.
    static method ToUds(c: CounterConfig, f: sint16) returns (uds: sint8)
      requires c.Valid()
      ensures uds as int == Shown(c, f as int)
      ensures Between(c, f as int) ==> uds as int == UdsCounter(c, f as int)
    {
      if Between(c, f as int) { UdsCounterRange(c, f as int); }
      var range: sint32 := c.failed as sint32 - c.passed as sint32;
      var temp: sint32 := 255 * (f as sint32 - c.passed as sint32) - 128 * range;
      QuotientSmaller(temp as int, range as int);
      var quotient: sint32 := if temp >= 0 then temp / range else -(-temp / range);
      assert quotient as int == UdsCounter(c, f as int);
      hide UdsCounter;
      uds := ToSint8(quotient as int) as sint8;
    }

    // preDebounceCounterBased.
    method Report(report: Status) returns (verdict: Status)
      requires c.Valid()
      modifies this
      ensures (State(), verdict) == AfterReport(c, old(State()), report)
      ensures old(Valid()) ==> Valid()
    {
      hide Shown, UdsCounter, Count;
      if Between(c, internal as int) { CountStaysBetween(c, internal as int, report); }
      Move(report);
      verdict := if internal >= c.failed then Failed else if internal <= c.passed then Passed else report;
      uds := ToUds(c, internal);
      maxUds := if maxUds > uds then maxUds else uds;
    }

    method Move(report: Status)
      requires c.Valid()
      modifies `internal
      ensures internal as int == Count(c, old(internal) as int, report)
    {
      match report
      case Prefailed =>
        if internal < c.failed { Climb(); }
      case Prepassed =>
        if internal > c.passed { Descend(); }
      case Failed => internal := c.failed;
      case Passed => internal := c.passed;
      case Unknown =>
    }

    method Climb()
      requires c.Valid() && internal < c.failed
      modifies `internal
      ensures internal as int == Count(c, old(internal) as int, Prefailed)
    {
      if c.jumpUp && internal < c.jumpUpValue { internal := c.jumpUpValue; }
      if internal as sint32 + c.increment as sint32 < c.failed as sint32 {
        internal := (internal as sint32 + c.increment as sint32) as sint16;
      } else {
        internal := c.failed;
      }
    }

    method Descend()
      requires c.Valid() && internal > c.passed
      modifies `internal
      ensures internal as int == Count(c, old(internal) as int, Prepassed)
    {
      if c.jumpDown && internal > c.jumpDownValue { internal := c.jumpDownValue; }
      if internal as sint32 - c.decrement as sint32 > c.passed as sint32 {
        internal := (internal as sint32 - c.decrement as sint32) as sint16;
      } else {
        internal := c.passed;
      }
    }

    method Reset()
      requires c.Valid()
      modifies this
      ensures State() == AtReset(c) && (Between(c, 0) ==> Valid())
    {
      var start := ToUds(c, 0);
      internal, uds, maxUds := 0, start, start;
    }
  }

  // ---------- Time based ----------

  datatype TimeConfig = TimeConfig(failedTime: uint32, passedTime: uint32) {
    function Threshold(failing: bool): uint32 { if failing then failedTime else passedTime }
  }

  // inUse: an event uses the timer. reset: it was restarted since the last main call.
  datatype Timer = Timer(inUse: bool, started: bool, failing: bool, time: uint32, reported: bool, reset: bool)

  function TimedFdc(c: TimeConfig, t: Timer): int {
    if !t.started then 0
    else if t.failing then
      if c.failedTime != 0 then Min(Quotient(t.time * 127, c.failedTime), 127) else 127
    else
      if c.passedTime != 0 then Max(Quotient(t.time * (-128), c.passedTime), -128) else -128
  }

  // The counter is at its end exactly when the time of the direction has been reached.
  lemma {:induction false} TimedFdcRange(c: TimeConfig, t: Timer)
    ensures !t.started ==> TimedFdc(c, t) == 0
    ensures -128 <= TimedFdc(c, t) <= 127
    ensures t.started && t.failing ==> TimedFdc(c, t) >= 0 && (TimedFdc(c, t) == 127 <==> t.time >= c.failedTime)
    ensures t.started && !t.failing ==> TimedFdc(c, t) <= 0 && (TimedFdc(c, t) == -128 <==> t.time >= c.passedTime)
  {
    hide Quotient;
    var d: int := if t.failing then c.failedTime else c.passedTime;
    if t.started && d != 0 {
      var a: int := t.time * if t.failing then 127 else (-128);
      QuotientExact(127, d);
      QuotientExact(-128, d);
      QuotientExact(0, d);
      if t.failing {
        QuotientMonotone(0, a, d);
        if t.time >= d { QuotientMonotone(127 * d, a, d); } else { QuotientBelow(a, d, 127); }
      } else {
        QuotientMonotone(a, 0, d);
        if t.time >= d { QuotientMonotone(a, -128 * d, d); } else { QuotientAbove(a, d, -128); }
      }
    }
  }

  // A report that starts, or turns, the timer.
  function Turn(c: TimeConfig, t: Timer, failing: bool, decided: bool): Timer {
    if decided || c.Threshold(failing) == 0 then Timer(true, true, failing, c.Threshold(failing), true, false)
    else Timer(true, true, failing, 0, false, true)
  }

  // preDebounceTimeBased.
  function ReportTimed(c: TimeConfig, t: Timer, report: Status): (r: (Timer, Status)) {
    match report
    case Failed | Prefailed =>
      if !t.started || !t.failing then
        (Turn(c, t, true, report == Failed), if report == Failed || c.failedTime == 0 then Failed else report)
      else (t.(inUse := true), report)
    case Passed | Prepassed =>
      if !t.started || t.failing then
        (Turn(c, t, false, report == Passed), if report == Passed || c.passedTime == 0 then Passed else report)
      else (t.(inUse := true), report)
    case Unknown => (t.(inUse := true), report)
  }

  // FAILED (PASSED) is the verdict of such a report at once, whatever the timer does, and a report
  // that turns the timer sets it to its end, or, undecided, to its start. A report in the direction
  // that is being counted does not restart the time.
  lemma {:induction false} TimedReports(c: TimeConfig, t: Timer, report: Status)
    ensures var r := ReportTimed(c, t, report);
            var up, down := report.Failed? || report.Prefailed?, report.Passed? || report.Prepassed?;
            && r.0.inUse
            && (report.Failed? ==> r.1 == Failed) && (report.Passed? ==> r.1 == Passed)
            && (up ==> r.0.started && r.0.failing) && (down ==> r.0.started && !r.0.failing)
            && ((up && t.started && t.failing) || (down && t.started && !t.failing) || report.Unknown? ==>
                  r == (t.(inUse := true), report))
            && (up && !(t.started && t.failing) ==>
                  if report.Failed? || c.failedTime == 0 then
                    r.1 == Failed && TimedFdc(c, r.0) == 127 && r.0.reported && !r.0.reset
                  else r.1 == Prefailed && TimedFdc(c, r.0) == 0 && !r.0.reported && r.0.reset)
            && (down && !(t.started && !t.failing) ==>
                  if report.Passed? || c.passedTime == 0 then
                    r.1 == Passed && TimedFdc(c, r.0) == -128 && r.0.reported && !r.0.reset
                  else r.1 == Prepassed && TimedFdc(c, r.0) == 0 && !r.0.reported && r.0.reset)
  {
    var r := ReportTimed(c, t, report).0;
    TimedFdcRange(c, r);
    QuotientExact(0, AtLeastOne(c.Threshold(r.failing)));
    hide Quotient;
  }

  // One main-function call for a timer. raised: the verdict it hands to the event handler;
  // handled: the handler's answer.
  function Tick(c: TimeConfig, task: uint32, t: Timer, cycleStarted: bool, handled: bool): (r: (Timer, bool)) {
    if !t.inUse then (t, false)
    else if !cycleStarted then (t.(started := false, reported := false), false)
    else if !t.started then (t, false)
    else if t.reset then (t.(reset := false), false)
    else
      var limit := c.Threshold(t.failing);
      var time: uint32 := if t.time < limit then (t.time + task) % WORDS else t.time;
      (t.(time := time, reported := t.reported || (time >= limit && handled)), time >= limit)
  }

  // Only a timer that is in use and started, in a cycle that is started, and not just restarted, counts:
  // up to its limit, where it stays and raises its verdict on every call. A cycle that is not started
  // stops it.
  lemma {:induction false} MainCall(c: TimeConfig, task: uint32, t: Timer, cycleStarted: bool, handled: bool)
    ensures var r := Tick(c, task, t, cycleStarted, handled);
            var counts := t.inUse && cycleStarted && t.started && !t.reset;
            var limit := if t.failing then c.failedTime else c.passedTime;
            && (r.1 <==> counts && (t.time >= limit || (t.time + task) % WORDS >= limit))
            && r.0.inUse == t.inUse && r.0.failing == t.failing
            && (r.0.started <==> t.started && (t.inUse ==> cycleStarted))
            && (r.0.reported <==> (t.reported && (t.inUse ==> cycleStarted)) || (r.1 && handled))
            && (r.0.reset <==> t.reset && !(t.inUse && cycleStarted && t.started))
            && r.0.time == if counts && t.time < limit then (t.time + task) % WORDS else t.time
  {
  }

  datatype TimerEvent = Repeated(decided: bool) | Main(handled: bool)

  // Main calls in a started cycle, and reports in the direction that is being counted.
  function Play(c: TimeConfig, task: uint32, t: Timer, es: seq<TimerEvent>, n: nat): Timer
    requires n <= |es|
  {
    if n == 0 then t
    else
      var before := Play(c, task, t, es, n - 1);
      match es[n - 1]
      case Main(handled) => Tick(c, task, before, true, handled).0
      case Repeated(decided) => ReportTimed(c, before, SameDirection(before.failing, decided)).0
  }

  function SameDirection(failing: bool, decided: bool): Status {
    if failing then if decided then Failed else Prefailed else if decided then Passed else Prepassed
  }

  function Mains(es: seq<TimerEvent>, n: nat): (m: nat)
    requires n <= |es|
  {
    if n == 0 then 0 else Mains(es, n - 1) + if es[n - 1].Main? then 1 else 0
  }

  // As long as no more than ceil(T / task) main calls have happened since the timer was
  // started, it has counted one task time for each of them but the first.
  lemma {:induction false} TimeCounted(c: TimeConfig, task: uint32, t: Timer, failing: bool, es: seq<TimerEvent>,
                                       n: nat)
    requires n <= |es| && task > 0 && !t.started && c.Threshold(failing) > 0
    requires Mains(es, n) <= CeilingOf(c.Threshold(failing), task)
    ensures var r := Play(c, task, ReportTimed(c, t, SameDirection(failing, false)).0, es, n);
            && r.inUse && r.started && r.failing == failing && r.reset == (Mains(es, n) == 0)
            && r.time == (if Mains(es, n) == 0 then 0 else (Mains(es, n) - 1) * task) < c.Threshold(failing)
  {
    if n > 0 {
      TimeCounted(c, task, t, failing, es, n - 1);
      var before := Play(c, task, ReportTimed(c, t, SameDirection(failing, false)).0, es, n - 1);
      var m: int := Mains(es, n);
      match es[n - 1]
      case Repeated(_) =>
      case Main(handled) =>
        CeilingBounds(c.Threshold(failing), task);
        BelowTheLimit(m, CeilingOf(c.Threshold(failing), task), task, c.Threshold(failing));
        hide CeilingOf, Play, Mains;
        if m == 1 { assert Tick(c, task, before, true, handled).0 == before.(reset := false); }
        else { TickCounts(c, task, before, handled); }
    }
  }

  lemma {:induction false} BelowTheLimit(m: int, q: int, task: uint32, limit: uint32)
    requires 1 <= m <= q && (q - 1) * task < limit
    ensures 0 <= (m - 1) * task < limit && (m >= 2 ==> (m - 1) * task == (m - 2) * task + task)
  {
    TimesMonotone(m - 1, q - 1, task);
    TimesMonotone(0, m - 1, task);
  }

  lemma {:induction false} TickCounts(c: TimeConfig, task: uint32, t: Timer, handled: bool)
    requires t.inUse && t.started && !t.reset && t.time + task < c.Threshold(t.failing)
    ensures Tick(c, task, t, true, handled).0 == t.(time := t.time + task)
  {
  }

  // One report from a stopped timer, then only reports in the same direction: the verdict
  // is raised first by exactly the (1 + ceil(T / task))-th main call, provided that the counted
  // time does not wrap around before. If it does, that call does not raise it, nor any before.
  lemma {:induction false} FirstVerdict(c: TimeConfig, task: uint32, t: Timer, failing: bool, es: seq<TimerEvent>,
                                        handled: bool)
    requires task > 0 && !t.started && c.Threshold(failing) > 0
    requires Mains(es, |es|) <= CeilingOf(c.Threshold(failing), task)
    ensures var n := CeilingOf(c.Threshold(failing), task);
            var before := Play(c, task, ReportTimed(c, t, SameDirection(failing, false)).0, es, |es|);
            Tick(c, task, before, true, handled).1 <==> Mains(es, |es|) == n && n * task < WORDS
  {
    hide CeilingOf, Play, ReportTimed, Mains;
    TimeCounted(c, task, t, failing, es, |es|);
    var m := Mains(es, |es|);
    var q := CeilingOf(c.Threshold(failing), task);
    CeilingBounds(c.Threshold(failing), task);
    if m >= 1 { OneMoreStep(m, q, task, c.Threshold(failing)); } else { CeilingPositive(c.Threshold(failing), task); }
  }

  lemma {:induction false} CeilingPositive(a: int, b: int)
    requires a > 0 && b > 0
    ensures CeilingOf(a, b) >= 1
  {
    CeilingBounds(a, b);
    var q := CeilingOf(a, b);
    if q <= 0 { TimesMonotone(q, 0, b); }
  }

  // The m-th step of the 32-bit timer reaches the limit exactly if it is the last one needed
  // and does not wrap.
  lemma {:induction false} OneMoreStep(m: int, q: int, task: uint32, limit: uint32)
    requires 1 <= m <= q && task > 0 && (q - 1) * task < limit <= q * task && (m - 1) * task < limit
    ensures ((m - 1) * task + task) % WORDS >= limit <==> m == q && q * task < WORDS
  {
    assert m * task == (m - 1) * task + task;
    if m < q {
      TimesMonotone(m, q - 1, task);
      assert m * task >= 0;
    } else if m * task >= WORDS {
      if m == 1 { assert false; }
      TimesMonotone(1, m - 1, task);
      assert m * task - WORDS < task <= (m - 1) * task;
      assert (m * task) % WORDS == m * task - WORDS;
    }
  }

  // With a threshold near the top of the range, the timer wraps instead of raising FAILED.
  lemma {:induction false} WrapsInsteadOfFailing(t: Timer, es: seq<TimerEvent>)
    requires !t.started && Mains(es, |es|) == 429496730
    ensures var c := TimeConfig(0xFFFF_FFFF, 1);
            && CeilingOf(0xFFFF_FFFF, 10) == 429496730
            && !Tick(c, 10, Play(c, 10, ReportTimed(c, t, Prefailed).0, es, |es|), true, true).1
  {
    FirstVerdict(TimeConfig(0xFFFF_FFFF, 1), 10, t, true, es, true);
  }

  // A timer with the counters of its event.
  datatype Slot = Slot(timer: Timer, uds: int, maxUds: int)

  function MainSlot(c: TimeConfig, task: uint32, s: Slot, cycleStarted: bool, handled: bool): (r: (Slot, bool)) {
    var ticked := Tick(c, task, s.timer, cycleStarted, handled);
    var fdc := TimedFdc(c, ticked.0);
    if s.timer.inUse && cycleStarted && s.timer.started then (Slot(ticked.0, fdc, Max(fdc, s.maxUds)), ticked.1)
    else (Slot(ticked.0, s.uds, s.maxUds), ticked.1)
  }

  // What is shown after a main call: the time of a running timer, 127 (-128) exactly if its verdict is
  // due; and the largest value so far. A timer that does not run leaves both.
  lemma {:induction false} MainShows(c: TimeConfig, task: uint32, s: Slot, cycleStarted: bool, handled: bool)
    ensures var r := MainSlot(c, task, s, cycleStarted, handled);
            var limit := if s.timer.failing then c.failedTime else c.passedTime;
            && (r.0.timer, r.1) == Tick(c, task, s.timer, cycleStarted, handled)
            && if s.timer.inUse && cycleStarted && s.timer.started then
                 && -128 <= r.0.uds <= 127 && r.0.maxUds == Max(s.maxUds, r.0.uds)
                 && (s.timer.failing ==> r.0.uds >= 0 && (r.0.uds == 127 <==> r.0.timer.time >= limit))
                 && (!s.timer.failing ==> r.0.uds <= 0 && (r.0.uds == -128 <==> r.0.timer.time >= limit))
               else r.0.uds == s.uds && r.0.maxUds == s.maxUds
  {
    MainCall(c, task, s.timer, cycleStarted, handled);
    hide TimedFdc, Tick;
    TimedFdcRange(c, Tick(c, task, s.timer, cycleStarted, handled).0);
  }

  class TimeDebouncer {
    const configs: seq<TimeConfig>
    const task: uint32
    const slots: array<Slot>

    predicate Valid() { slots.Length == |configs| }

    // InitTimeBasedDebounce.
    constructor (configs: seq<TimeConfig>, task: uint32)
      ensures Valid() && fresh(slots) && this.configs == configs && this.task == task
      ensures forall i | 0 <= i < slots.Length :: slots[i] == Slot(Timer(false, false, false, 0, false, false), 0, 0)
    {
      this.configs, this.task := configs, task;
      slots := new Slot[|configs|](_ => Slot(Timer(false, false, false, 0, false, false), 0, 0));
    }

    method Restart(i: nat, failing: bool, decided: bool) returns (done: bool)
      requires Valid() && i < slots.Length
      modifies slots
      ensures done <==> decided || configs[i].Threshold(failing) == 0
      ensures slots[..] == old(slots[..])[
                i := old(slots[i]).(timer := Turn(configs[i], old(slots[i]).timer, failing, decided))]
    {
      var t := slots[i].timer.(inUse := true, started := true, failing := failing);
      done := decided || configs[i].Threshold(failing) == 0;
      if done {
        t := t.(time := configs[i].Threshold(failing), reported := true, reset := false);
      } else {
        t := t.(time := 0, reported := false, reset := true);
      }
      slots[i] := slots[i].(timer := t);
    }

    // preDebounceTimeBased.
    method Report(i: nat, report: Status) returns (verdict: Status)
      requires Valid() && i < slots.Length
      modifies slots
      ensures var r := ReportTimed(configs[i], old(slots[i]).timer, report);
              verdict == r.1 && slots[..] == old(slots[..])[i := old(slots[i]).(timer := r.0)]
    {
      verdict := report;
      var t := slots[i].timer;
      if (report.Failed? || report.Prefailed?) && (!t.started || !t.failing) {
        var done := Restart(i, true, report.Failed?);
        if done { verdict := Failed; }
      } else if (report.Passed? || report.Prepassed?) && (!t.started || t.failing) {
        var done := Restart(i, false, report.Passed?);
        if done { verdict := Passed; }
      } else {
        slots[i] := slots[i].(timer := t.(inUse := true));
      }
    }

    // resetDebounceCounter, for an event with a timer.
    method Reset(i: nat)
      requires Valid() && i < slots.Length
      modifies slots
      ensures slots[..] == old(slots[..])[
                i := Slot(old(slots[i]).timer.(started := false, reported := false, time := 0), 0, 0)]
      ensures TimedFdc(configs[i], slots[i].timer) == slots[i].uds
    {
      slots[i] := Slot(slots[i].timer.(started := false, reported := false, time := 0), 0, 0);
    }

    // TimeBasedDebounceMainFunction. cycles: the operation cycles that are started; handled:
    // the event handler's answers; raised: the timers whose verdict was handed to it.
    method MainFunction(cycles: seq<bool>, handled: seq<bool>) returns (raised: seq<bool>)
      requires Valid() && |cycles| == |handled| == slots.Length
      modifies slots
      ensures |raised| == slots.Length
      ensures forall i | 0 <= i < slots.Length ::
                (slots[i], raised[i]) == MainSlot(configs[i], task, old(slots[i]), cycles[i], handled[i])
    {
      hide TimedFdc;
      raised := [];
      var i := 0;
      while i < slots.Length
        invariant i <= slots.Length == |configs| && |raised| == i
        invariant forall k | 0 <= k < i ::
                    (slots[k], raised[k]) == MainSlot(configs[k], task, old(slots[k]), cycles[k], handled[k])
        invariant forall k | i <= k < slots.Length :: slots[k] == old(slots[k])
      {
        var raises := MainOf(i, cycles[i], handled[i]);
        raised := raised + [raises];
        i := i + 1;
      }
    }

    method MainOf(i: nat, cycleStarted: bool, handled: bool) returns (raises: bool)
      requires Valid() && i < slots.Length
      modifies slots
      ensures (slots[i], raises) == MainSlot(configs[i], task, old(slots[i]), cycleStarted, handled)
      ensures forall k | 0 <= k < slots.Length && k != i :: slots[k] == old(slots[k])
    {
      hide TimedFdc;
      raises := false;
      var t := slots[i].timer;
      if !t.inUse { return; }
      if !cycleStarted {
        slots[i] := slots[i].(timer := t.(started := false, reported := false));
      } else if t.started {
        if !t.reset {
          var limit := configs[i].Threshold(t.failing);
          if t.time < limit { t := t.(time := (t.time + task) % WORDS); }
          if t.time >= limit {
            raises := true;
            if handled { t := t.(reported := true); }
          }
        } else {
          t := t.(reset := false);
        }
        var fdc := TimedFdc(configs[i], t);
        slots[i] := Slot(t, fdc, Max(fdc, slots[i].maxUds));
      }
    }
  }
}
